/**
 * No amplification: over every run, nothing a principal, credential or token can do goes beyond what
 * an administrator, a role definition or bootstrap had conferred on someone in its delegation lineage.
 */
module Amplification {
  import opened Common
  import opened Permissions
  import opened Resolve
  import opened Delegation
  import opened TokenTimes
  import opened Issue

  // ── Root authority ─────────────────────────────────────────────────────────

  /** What administrators' grants, roles, bootstrap and operator keys give `p` itself, right now. */
  ghost predicate RootHolds(s: State, p: Id, app: string, action: string, scope: Option<Scope>) {
    || p in s.config.operators
    || IsBootstrapUser(s, p)
    || exists g :: g in s.grants && s.grants[g].byAdmin && HoldsNow(s, s.grants[g], p, app)
                   && RowConfers(s.grants[g].row, if app in s.roles then s.roles[app] else map[], action, scope)
  }

  ghost predicate IsBootstrapUser(s: State, p: Id) {
    p in s.principals && s.principals[p].isUser
    && exists email :: email in s.config.bootstrapAdmins && s.principals[p].email == Some(email)
  }

  /** The grant is `p`'s, for every app or this one, and has not run out. */
  ghost predicate HoldsNow(s: State, grant: Grant, p: Id, app: string) {
    && grant.principal == p
    && (grant.row.app.Some? ==> grant.row.app.value == app)
    && (grant.expiresAt.Some? ==> s.now < grant.expiresAt.value)
  }

  /** Live permissions, from the stored rows: bootstrap or a current grant confers each, and, well named, all of them. */
  lemma LivePermissionsIff(s: State, p: Id, app: string, reading: seq<Id>, action: string, scope: Option<Scope>)
    requires IsReading(s, p, app, reading)
    ensures var roles := if app in s.roles then s.roles[app] else map[];
            var permitted := Permits(LivePermissions(s, p, app, reading), action, scope);
            var conferred := IsBootstrapUser(s, p) || exists g ::
              g in s.grants && HoldsNow(s, s.grants[g], p, app) && RowConfers(s.grants[g].row, roles, action, scope);
            && (permitted ==> conferred)
            && ((forall g :: g in s.grants && HoldsNow(s, s.grants[g], p, app) ==> WellNamedRow(s.grants[g].row, roles))
                ==> (conferred ==> permitted))
  {
    var rows, roles := Rows(s, reading), RolesOf(s, app);
    ResolvedPermitsIff(rows, IsBootstrapAdmin(s, p), roles, action, scope);
    forall g | g in reading ensures g in s.grants && HoldsNow(s, s.grants[g], p, app) && s.grants[g].row in rows {
      var i :| 0 <= i < |reading| && reading[i] == g;
      assert rows[i] == s.grants[g].row;
    }
    forall row | row in rows ensures exists g :: g in reading && s.grants[g].row == row {
      var i :| 0 <= i < |rows| && rows[i] == row;
      assert reading[i] in reading;
    }
    forall g | g in s.grants && HoldsNow(s, s.grants[g], p, app) ensures g in reading {
      assert Active(s, s.grants[g], p, app);
    }
  }

  /** Somebody in `lineage` held it from a root source at some point of the run. */
  ghost predicate Conferred(c: Config, rs: seq<Request>, lineage: set<Id>, app: string, action: string, scope: Option<Scope>) {
    exists k, p :: 0 <= k <= |rs| && p in lineage && RootHolds(Run(c, rs[..k]), p, app, action, scope)
  }

  ghost predicate Backed(c: Config, rs: seq<Request>, lineage: set<Id>, app: string, entries: seq<Entry>) {
    forall action, scope :: Permits(entries, action, scope) ==> Conferred(c, rs, lineage, app, action, scope)
  }

  /** For anonymous credentials, which record no app. */
  ghost predicate BackedSomewhere(c: Config, rs: seq<Request>, lineage: set<Id>, entries: seq<Entry>) {
    exists app :: Backed(c, rs, lineage, app, entries)
  }

  lemma ConferredGrows(
      c: Config, rs: seq<Request>, r: Request, l: set<Id>, wider: set<Id>, app: string, action: string, scope: Option<Scope>)
    requires Conferred(c, rs, l, app, action, scope) && l <= wider
    ensures Conferred(c, rs + [r], wider, app, action, scope)
  {
    var k, p :| 0 <= k <= |rs| && p in l && RootHolds(Run(c, rs[..k]), p, app, action, scope);
    assert (rs + [r])[..k] == rs[..k];
  }

  lemma BackedGrows(c: Config, rs: seq<Request>, r: Request, l: set<Id>, wider: set<Id>, app: string, entries: seq<Entry>)
    requires Backed(c, rs, l, app, entries) && l <= wider
    ensures Backed(c, rs + [r], wider, app, entries)
  {
    forall action, scope | Permits(entries, action, scope) ensures Conferred(c, rs + [r], wider, app, action, scope) {
      ConferredGrows(c, rs, r, l, wider, app, action, scope);
    }
  }

  lemma BackedNarrows(c: Config, rs: seq<Request>, l: set<Id>, app: string, entries: seq<Entry>, narrower: seq<Entry>)
    requires Backed(c, rs, l, app, entries) && Contained(narrower, entries)
    ensures Backed(c, rs, l, app, narrower)
  {
  }

  // ── The invariant ──────────────────────────────────────────────────────────

  /** A grant made by delegation is an inline grant for one app, and its lineage answers for it. */
  ghost predicate GrantBacked(c: Config, rs: seq<Request>, s: State, g: Grant) {
    !g.byAdmin ==>
      && g.row.app.Some? && g.row.roleKey.None?
      && Backed(c, rs, LineageOf(s, g.principal), g.row.app.value, GrantEntries(g.row, map[]))
  }

  ghost predicate CredentialBacked(c: Config, rs: seq<Request>, s: State, cred: Credential) {
    cred.principal.None? ==> BackedSomewhere(c, rs, LineageOf(s, cred.issuedBy), AsEntries(cred.grants))
  }

  ghost predicate TokenBacked(c: Config, rs: seq<Request>, s: State, t: Token) {
    match t.origin
    case ForPrincipal => Backed(c, rs, LineageOf(s, t.subject), t.app, t.permissions)
    case PassedThrough(issuer) => Backed(c, rs, LineageOf(s, issuer), t.app, t.permissions)
    case FromShareLink(issuer) => BackedSomewhere(c, rs, LineageOf(s, issuer), t.permissions)
  }

  ghost predicate GrantsBacked(c: Config, rs: seq<Request>, s: State) {
    forall g :: g in s.grants ==> GrantBacked(c, rs, s, s.grants[g])
  }

  ghost predicate CredentialsBacked(c: Config, rs: seq<Request>, s: State) {
    forall cid :: cid in s.credentials ==> CredentialBacked(c, rs, s, s.credentials[cid])
  }

  ghost predicate TokensBacked(c: Config, rs: seq<Request>, s: State) {
    forall t :: t in s.tokens ==> TokenBacked(c, rs, s, t)
  }

  /** A resolved caller stays backed however late its request acts. */
  ghost predicate AcceptedBacked(c: Config, rs: seq<Request>, s: State, a: Accepted) {
    Backed(c, rs, LineageOf(s, a.issuer.id), a.app, a.issuer.permissions)
  }

  ghost predicate CallersBacked(c: Config, rs: seq<Request>, s: State) {
    forall a :: a in s.accepted ==> AcceptedBacked(c, rs, s, a)
  }

  ghost predicate AllBacked(c: Config, rs: seq<Request>, s: State) {
    GrantsBacked(c, rs, s) && CredentialsBacked(c, rs, s) && TokensBacked(c, rs, s) && CallersBacked(c, rs, s)
  }

  // ── What live resolution and callers hold ──────────────────────────────────

  lemma GrantEntriesIgnoreRoles(row: GrantRow, roles: AppRoles)
    requires row.roleKey.None?
    ensures GrantEntries(row, roles) == GrantEntries(row, map[])
  {
  }

  lemma OneGrantIsConferred(
      c: Config, rs: seq<Request>, s: State, g: Id, p: Id, app: string, action: string, scope: Option<Scope>)
    requires s == Run(c, rs) && GrantsBacked(c, rs, s)
    requires g in s.grants && Active(s, s.grants[g], p, app)
    requires Permits(GrantEntries(s.grants[g].row, RolesOf(s, app)), action, scope)
    ensures Conferred(c, rs, LineageOf(s, p), app, action, scope)
  {
    if s.grants[g].byAdmin {
      GrantPermitsIff(s.grants[g].row, RolesOf(s, app), action, scope);
      assert HoldsNow(s, s.grants[g], p, app);
      ConferredNow(c, rs, p, app, action, scope);
    } else {
      assert GrantBacked(c, rs, s, s.grants[g]);
      GrantEntriesIgnoreRoles(s.grants[g].row, RolesOf(s, app));
    }
  }

  /** An entry of the union comes from one active grant, or from bootstrap. */
  lemma UnionEntrySource(s: State, p: Id, app: string, reading: seq<Id>, e: Entry)
    requires IsReading(s, p, app, reading)
    requires e in Union(Rows(s, reading), IsBootstrapAdmin(s, p), RolesOf(s, app))
    ensures IsBootstrapAdmin(s, p) || exists g ::
              g in s.grants && Active(s, s.grants[g], p, app) && e in GrantEntries(s.grants[g].row, RolesOf(s, app))
  {
    var rows, roles := Rows(s, reading), RolesOf(s, app);
    if e in AllGrantEntries(rows, roles) {
      AllGrantEntriesMembers(rows, roles, e);
      var row :| row in rows && e in GrantEntries(row, roles);
      var i :| 0 <= i < |rows| && rows[i] == row;
      assert reading[i] in reading;
    }
  }

  lemma LivePermissionsBacked(c: Config, rs: seq<Request>, s: State, p: Id, app: string, reading: seq<Id>)
    requires s == Run(c, rs) && GrantsBacked(c, rs, s) && IsReading(s, p, app, reading)
    ensures Backed(c, rs, LineageOf(s, p), app, LivePermissions(s, p, app, reading))
  {
    var union := Union(Rows(s, reading), IsBootstrapAdmin(s, p), RolesOf(s, app));
    forall action, scope | Permits(union, action, scope)
      ensures Conferred(c, rs, LineageOf(s, p), app, action, scope)
    {
      var e :| e in union && Covers(e, action, scope);
      UnionEntrySource(s, p, app, reading, e);
      if IsBootstrapAdmin(s, p) {
        ConferredNow(c, rs, p, app, action, scope);
      } else {
        var g :| g in s.grants && Active(s, s.grants[g], p, app) && e in GrantEntries(s.grants[g].row, RolesOf(s, app));
        OneGrantIsConferred(c, rs, s, g, p, app, action, scope);
      }
    }
    DedupNeverWidens(union);
    BackedNarrows(c, rs, LineageOf(s, p), app, union, Dedup(union));
  }

  lemma ConferredNow(c: Config, rs: seq<Request>, p: Id, app: string, action: string, scope: Option<Scope>)
    requires RootHolds(Run(c, rs), p, app, action, scope)
    ensures Conferred(c, rs, LineageOf(Run(c, rs), p), app, action, scope)
  {
    assert rs[..|rs|] == rs;
    assert RootHolds(Run(c, rs[..|rs|]), p, app, action, scope);
  }

  lemma IssuerBacked(c: Config, rs: seq<Request>, s: State, app: string, caller: Caller)
    requires s == Run(c, rs) && AllBacked(c, rs, s) && ResolveCaller(s, app, caller).Some?
    ensures var issuer := ResolveCaller(s, app, caller).value;
            Backed(c, rs, LineageOf(s, issuer.id), app, issuer.permissions)
  {
    var issuer := ResolveCaller(s, app, caller).value;
    match caller
    case AsOperator(id) =>
      ConfigNeverChanges(c, rs);
      forall action, scope ensures Conferred(c, rs, LineageOf(s, id), app, action, scope) {
        ConferredNow(c, rs, id, app, action, scope);
      }
    case WithKey(cid, reading) =>
      var live := LivePermissions(s, issuer.id, app, reading);
      LivePermissionsBacked(c, rs, s, issuer.id, app, reading);
      EffectiveWithinPrincipal(live, AsEntries(s.credentials[cid].grants));
      BackedNarrows(c, rs, LineageOf(s, issuer.id), app, live, issuer.permissions);
    case WithToken(t) =>
      assert TokenBacked(c, rs, s, t);
  }

  lemma StepKeepsConfig(s: State, r: Request)
    ensures Step(s, r).config == s.config
  {
  }

  lemma {:induction false} ConfigNeverChanges(c: Config, rs: seq<Request>)
    ensures Run(c, rs).config == c
  {
    if rs != [] {
      ConfigNeverChanges(c, rs[..|rs| - 1]);
      StepKeepsConfig(Run(c, rs[..|rs| - 1]), rs[|rs| - 1]);
    }
  }

  /** Whatever the delegation check lets through is backed by the issuer's lineage. */
  lemma DelegatedBacked(c: Config, rs: seq<Request>, s: State, app: string, issuer: Issuer, grants: seq<KeyGrant>)
    requires AllBacked(c, rs, s) && Accepted(app, issuer) in s.accepted
    requires AllCovered(issuer.permissions, grants)
    ensures Backed(c, rs, LineageOf(s, issuer.id), app, AsEntries(grants))
  {
    assert AcceptedBacked(c, rs, s, Accepted(app, issuer));
    DelegationIsExact(issuer.permissions, grants);
    BackedNarrows(c, rs, LineageOf(s, issuer.id), app, issuer.permissions, AsEntries(grants));
  }

  // ── One step ───────────────────────────────────────────────────────────────

  ghost predicate LineageGrows(s: State, t: State) {
    forall p :: LineageOf(s, p) <= LineageOf(t, p)
  }

  lemma GrantBackedGrows(c: Config, rs: seq<Request>, r: Request, s: State, t: State, g: Grant)
    requires GrantBacked(c, rs, s, g) && LineageGrows(s, t)
    ensures GrantBacked(c, rs + [r], t, g)
  {
    if !g.byAdmin {
      BackedGrows(c, rs, r, LineageOf(s, g.principal), LineageOf(t, g.principal), g.row.app.value, GrantEntries(g.row, map[]));
    }
  }

  lemma CredentialBackedGrows(c: Config, rs: seq<Request>, r: Request, s: State, t: State, cred: Credential)
    requires CredentialBacked(c, rs, s, cred) && LineageGrows(s, t)
    ensures CredentialBacked(c, rs + [r], t, cred)
  {
    if cred.principal.None? {
      var l := LineageOf(s, cred.issuedBy);
      var app :| Backed(c, rs, l, app, AsEntries(cred.grants));
      BackedGrows(c, rs, r, l, LineageOf(t, cred.issuedBy), app, AsEntries(cred.grants));
    }
  }

  lemma TokenBackedGrows(c: Config, rs: seq<Request>, r: Request, s: State, t: State, token: Token)
    requires TokenBacked(c, rs, s, token) && LineageGrows(s, t)
    ensures TokenBacked(c, rs + [r], t, token)
  {
    match token.origin
    case ForPrincipal =>
      BackedGrows(c, rs, r, LineageOf(s, token.subject), LineageOf(t, token.subject), token.app, token.permissions);
    case PassedThrough(issuer) =>
      BackedGrows(c, rs, r, LineageOf(s, issuer), LineageOf(t, issuer), token.app, token.permissions);
    case FromShareLink(issuer) =>
      var app :| Backed(c, rs, LineageOf(s, issuer), app, token.permissions);
      BackedGrows(c, rs, r, LineageOf(s, issuer), LineageOf(t, issuer), app, token.permissions);
  }

  /** It is enough to answer for what a step adds. */
  lemma BackedCarries(c: Config, rs: seq<Request>, r: Request, s: State, t: State)
    requires AllBacked(c, rs, s) && LineageGrows(s, t)
    requires forall g :: g in t.grants ==> (g in s.grants && t.grants[g] == s.grants[g]) || GrantBacked(c, rs + [r], t, t.grants[g])
    requires forall cid :: cid in t.credentials ==>
               (cid in s.credentials && t.credentials[cid].(revoked := false) == s.credentials[cid].(revoked := false))
               || CredentialBacked(c, rs + [r], t, t.credentials[cid])
    requires forall k :: k in t.tokens ==> k in s.tokens || TokenBacked(c, rs + [r], t, k)
    requires forall a :: a in t.accepted ==> a in s.accepted || AcceptedBacked(c, rs + [r], t, a)
    ensures AllBacked(c, rs + [r], t)
  {
    forall a | a in t.accepted ensures AcceptedBacked(c, rs + [r], t, a) {
      if a in s.accepted {
        assert AcceptedBacked(c, rs, s, a);
        BackedGrows(c, rs, r, LineageOf(s, a.issuer.id), LineageOf(t, a.issuer.id), a.app, a.issuer.permissions);
      }
    }
    forall g | g in t.grants ensures GrantBacked(c, rs + [r], t, t.grants[g]) {
      if g in s.grants && t.grants[g] == s.grants[g] {
        GrantBackedGrows(c, rs, r, s, t, s.grants[g]);
      }
    }
    forall cid | cid in t.credentials ensures CredentialBacked(c, rs + [r], t, t.credentials[cid]) {
      if cid in s.credentials {
        CredentialBackedGrows(c, rs, r, s, t, s.credentials[cid]);
      }
    }
    forall k | k in t.tokens ensures TokenBacked(c, rs + [r], t, k) {
      if k in s.tokens {
        TokenBackedGrows(c, rs, r, s, t, k);
      }
    }
  }

  lemma {:induction false} StringsOfTexts(patterns: seq<string>)
    ensures Strings(AsJson(patterns).items) == patterns
  {
    if patterns != [] {
      StringsOfTexts(patterns[1..]);
      assert AsJson(patterns).items[1..] == AsJson(patterns[1..]).items;
    }
  }

  /** Storing a service's patterns as JSON and reading them back gives the entries that were checked. */
  lemma ServiceRowReadsBack(app: string, patterns: seq<string>, scope: Option<Scope>)
    ensures GrantEntries(ServiceRow(app, patterns, scope), map[]) == AsEntries(ServiceGrants(patterns, scope))
  {
    StringsOfTexts(patterns);
  }

  lemma NewCallerKeeps(c: Config, rs: seq<Request>, r: Request, a: Accepted)
    requires AllBacked(c, rs, Run(c, rs)) && AcceptedBacked(c, rs, Run(c, rs), a)
    requires Step(Run(c, rs), r) == Run(c, rs).(accepted := Run(c, rs).accepted + {a})
    ensures AllBacked(c, rs + [r], Step(Run(c, rs), r))
  {
    var s, t := Run(c, rs), Step(Run(c, rs), r);
    var l := LineageOf(s, a.issuer.id);
    BackedGrows(c, rs, r, l, l, a.app, a.issuer.permissions);
    BackedCarries(c, rs, r, s, t);
  }

  lemma AcceptKeeps(c: Config, rs: seq<Request>, r: Request)
    requires r.Accept? && AllBacked(c, rs, Run(c, rs))
    ensures AllBacked(c, rs + [r], Step(Run(c, rs), r))
  {
    var issuer := ResolveCaller(Run(c, rs), r.app, r.caller);
    if issuer.Some? {
      IssuerBacked(c, rs, Run(c, rs), r.app, r.caller);
      NewCallerKeeps(c, rs, r, Accepted(r.app, issuer.value));
    } else {
      UnchangedKeeps(c, rs, r);
    }
  }

  lemma IssueServiceKeeps(c: Config, rs: seq<Request>, r: Request)
    requires r.IssueService? && AllBacked(c, rs, Run(c, rs))
    ensures AllBacked(c, rs + [r], Step(Run(c, rs), r))
  {
    var s, t := Run(c, rs), Step(Run(c, rs), r);
    if t != s {
      var issuer := r.issuer.id;
      var entries := AsEntries(ServiceGrants(r.patterns, r.scope));
      DelegatedBacked(c, rs, s, r.app, r.issuer, ServiceGrants(r.patterns, r.scope));
      ServiceRowReadsBack(r.app, r.patterns, r.scope);
      assert LineageOf(t, r.pid) == {r.pid} + LineageOf(s, issuer);
      BackedGrows(c, rs, r, LineageOf(s, issuer), LineageOf(t, r.pid), r.app, entries);
      if r.writes >= 2 {
        assert GrantBacked(c, rs + [r], t, t.grants[r.gid]);
      }
    }
    assert LineageGrows(s, t);
    BackedCarries(c, rs, r, s, t);
  }

  lemma IssueCredentialKeeps(c: Config, rs: seq<Request>, r: Request)
    requires r.IssueCredential? && AllBacked(c, rs, Run(c, rs))
    ensures AllBacked(c, rs + [r], Step(Run(c, rs), r))
  {
    var s, t := Run(c, rs), Step(Run(c, rs), r);
    if t != s && r.bindTo.None? {
      var issuer := r.issuer.id;
      DelegatedBacked(c, rs, s, r.app, r.issuer, r.grants);
      BackedGrows(c, rs, r, LineageOf(s, issuer), LineageOf(t, issuer), r.app, AsEntries(r.grants));
    }
    BackedCarries(c, rs, r, s, t);
  }

  lemma NewTokenKeeps(c: Config, rs: seq<Request>, r: Request, token: Token)
    requires AllBacked(c, rs, Run(c, rs)) && TokenBacked(c, rs, Run(c, rs), token)
    requires Step(Run(c, rs), r) == Run(c, rs).(tokens := Run(c, rs).tokens + {token})
    ensures AllBacked(c, rs + [r], Step(Run(c, rs), r))
  {
    var s, t := Run(c, rs), Step(Run(c, rs), r);
    TokenBackedGrows(c, rs, r, s, t, token);
    BackedCarries(c, rs, r, s, t);
  }

  lemma MintFromKeyKeeps(c: Config, rs: seq<Request>, r: Request)
    requires r.MintFromKey? && AllBacked(c, rs, Run(c, rs))
    ensures AllBacked(c, rs + [r], Step(Run(c, rs), r))
  {
    var s := Run(c, rs);
    var token := TokenFromKey(s, r.app, r.cid, r.reading);
    if token.None? {
      BackedCarries(c, rs, r, s, s);
    } else {
      var cred := s.credentials[r.cid];
      assert CredentialBacked(c, rs, s, cred);
      if cred.principal.Some? {
        var p := cred.principal.value;
        var live := LivePermissions(s, p, r.app, r.reading);
        LivePermissionsBacked(c, rs, s, p, r.app, r.reading);
        EffectiveWithinPrincipal(live, AsEntries(cred.grants));
        BackedNarrows(c, rs, LineageOf(s, p), r.app, live, Effective(live, AsEntries(cred.grants)));
      }
      NewTokenKeeps(c, rs, r, token.value);
    }
  }

  lemma MintTokenSignsLivePermissions(s: State, r: Request)
    requires r.MintToken? && Step(s, r) != s
    ensures IsReading(s, r.pid, r.app, r.reading)
    ensures var live := LivePermissions(s, r.pid, r.app, r.reading);
            Step(s, r) == s.(tokens := s.tokens + {Token(r.app, r.pid, live, s.now, s.now + DEFAULT_TOKEN_TTL, ForPrincipal)})
  {
  }

  lemma UnchangedKeeps(c: Config, rs: seq<Request>, r: Request)
    requires AllBacked(c, rs, Run(c, rs)) && Step(Run(c, rs), r) == Run(c, rs)
    ensures AllBacked(c, rs + [r], Step(Run(c, rs), r))
  {
    BackedCarries(c, rs, r, Run(c, rs), Run(c, rs));
  }

  lemma MintTokenKeeps(c: Config, rs: seq<Request>, r: Request)
    requires r.MintToken? && AllBacked(c, rs, Run(c, rs))
    ensures AllBacked(c, rs + [r], Step(Run(c, rs), r))
  {
    var s := Run(c, rs);
    if Step(s, r) == s {
      UnchangedKeeps(c, rs, r);
    } else {
      MintTokenSignsLivePermissions(s, r);
      LivePermissionsBacked(c, rs, s, r.pid, r.app, r.reading);
      var live := LivePermissions(s, r.pid, r.app, r.reading);
      NewTokenKeeps(c, rs, r, Token(r.app, r.pid, live, s.now, s.now + DEFAULT_TOKEN_TTL, ForPrincipal));
    }
  }

  lemma IssueJwtKeeps(c: Config, rs: seq<Request>, r: Request)
    requires r.IssueJwt? && AllBacked(c, rs, Run(c, rs))
    ensures AllBacked(c, rs + [r], Step(Run(c, rs), r))
  {
    var s, t := Run(c, rs), Step(Run(c, rs), r);
    if t != s {
      var issuer := r.issuer.id;
      DelegatedBacked(c, rs, s, r.app, r.issuer, r.grants);
      NewTokenKeeps(c, rs, r,
        Token(r.app, r.subject, AsEntries(r.grants), s.now, s.now + PassthroughTtl(r.ttl), PassedThrough(issuer)));
    } else {
      UnchangedKeeps(c, rs, r);
    }
  }

  lemma StepKeeps(c: Config, rs: seq<Request>, r: Request)
    requires AllBacked(c, rs, Run(c, rs))
    ensures AllBacked(c, rs + [r], Step(Run(c, rs), r))
  {
    match r
    case Accept(_, _) => AcceptKeeps(c, rs, r);
    case IssueService(_, _, _, _, _, _, _, _, _) => IssueServiceKeeps(c, rs, r);
    case IssueCredential(_, _, _, _, _, _) => IssueCredentialKeeps(c, rs, r);
    case IssueJwt(_, _, _, _, _) => IssueJwtKeeps(c, rs, r);
    case MintToken(_, _, _) => MintTokenKeeps(c, rs, r);
    case MintFromKey(_, _, _) => MintFromKeyKeeps(c, rs, r);
    case _ =>
      var s, t := Run(c, rs), Step(Run(c, rs), r);
      OtherStepsSignNothing(s, r);
      OtherGrantsAreAdministrators(s, r);
      forall cid | cid in t.credentials
        ensures (cid in s.credentials && t.credentials[cid].(revoked := false) == s.credentials[cid].(revoked := false))
             || t.credentials[cid].principal.Some?
      {
        OtherKeysArePrincipalBound(s, r, cid);
      }
      BackedCarries(c, rs, r, s, t);
  }

  // Administration and taking away.

  predicate IsOther(r: Request) {
    !r.Accept? && !r.IssueService? && !r.IssueCredential? && !r.IssueJwt? && !r.MintToken? && !r.MintFromKey?
  }

  lemma OtherStepsSignNothing(s: State, r: Request)
    requires IsOther(r)
    ensures Step(s, r).lineage == s.lineage && Step(s, r).tokens == s.tokens && Step(s, r).accepted == s.accepted
  {
  }

  lemma OtherGrantsAreAdministrators(s: State, r: Request)
    requires IsOther(r)
    ensures forall g :: g in Step(s, r).grants ==>
              (g in s.grants && Step(s, r).grants[g] == s.grants[g]) || Step(s, r).grants[g].byAdmin
  {
  }

  lemma OtherKeysArePrincipalBound(s: State, r: Request, cid: Id)
    requires IsOther(r) && cid in Step(s, r).credentials
    ensures var cred := Step(s, r).credentials[cid];
            || (cid in s.credentials && cred.(revoked := false) == s.credentials[cid].(revoked := false))
            || cred.principal.Some?
  {
  }

  lemma NothingIsBacked(c: Config)
    ensures AllBacked(c, [], Run(c, []))
  {
  }

  lemma {:induction false} AlwaysBacked(c: Config, rs: seq<Request>)
    ensures AllBacked(c, rs, Run(c, rs))
  {
    if rs == [] {
      NothingIsBacked(c);
    } else {
      var init, last := rs[..|rs| - 1], rs[|rs| - 1];
      assert init + [last] == rs;
      AlwaysBacked(c, init);
      StepKeeps(c, init, last);
      assert Run(c, rs) == Step(Run(c, init), last);
    }
  }

  // ── The theorems ───────────────────────────────────────────────────────────

  /** Every token ever signed, whatever came before it. Only share-link tokens are answered for app-blind. */
  lemma NoTokenAmplifies(c: Config, rs: seq<Request>, t: Token, action: string, scope: Option<Scope>)
    requires t in Run(c, rs).tokens && Permits(t.permissions, action, scope)
    ensures t.origin.ForPrincipal? ==> Conferred(c, rs, LineageOf(Run(c, rs), t.subject), t.app, action, scope)
    ensures t.origin.PassedThrough? ==> Conferred(c, rs, LineageOf(Run(c, rs), t.origin.issuer), t.app, action, scope)
    ensures t.origin.FromShareLink? ==>
              exists app :: Conferred(c, rs, LineageOf(Run(c, rs), t.origin.issuer), app, action, scope)
  {
    AlwaysBacked(c, rs);
    assert TokenBacked(c, rs, Run(c, rs), t);
  }

  /** Every principal's live permissions, in every app and for every order its grants are read in. */
  lemma NoPrincipalAmplifies(
      c: Config, rs: seq<Request>, p: Id, app: string, reading: seq<Id>, action: string, scope: Option<Scope>)
    requires IsReading(Run(c, rs), p, app, reading)
    requires Permits(LivePermissions(Run(c, rs), p, app, reading), action, scope)
    ensures Conferred(c, rs, LineageOf(Run(c, rs), p), app, action, scope)
  {
    AlwaysBacked(c, rs);
    LivePermissionsBacked(c, rs, Run(c, rs), p, app, reading);
  }

  /** Every caller accepted by the management endpoints. */
  lemma NoCallerAmplifies(c: Config, rs: seq<Request>, app: string, caller: Caller, action: string, scope: Option<Scope>)
    requires ResolveCaller(Run(c, rs), app, caller).Some?
    requires Permits(ResolveCaller(Run(c, rs), app, caller).value.permissions, action, scope)
    ensures Conferred(c, rs, LineageOf(Run(c, rs), ResolveCaller(Run(c, rs), app, caller).value.id), app, action, scope)
  {
    AlwaysBacked(c, rs);
    IssuerBacked(c, rs, Run(c, rs), app, caller);
  }

  /** A share link's frozen grants were all held, in one app, by the lineage of whoever issued it. */
  lemma NoShareLinkAmplifies(c: Config, rs: seq<Request>, cid: Id)
    requires cid in Run(c, rs).credentials && Run(c, rs).credentials[cid].principal.None?
    ensures var cred := Run(c, rs).credentials[cid];
            BackedSomewhere(c, rs, LineageOf(Run(c, rs), cred.issuedBy), AsEntries(cred.grants))
  {
    AlwaysBacked(c, rs);
    assert CredentialBacked(c, rs, Run(c, rs), Run(c, rs).credentials[cid]);
  }

  // ── A delegated key is not short-changed either ────────────────────────────

  ghost predicate GrantsHaveHolders(s: State) {
    forall g :: g in s.grants ==> s.grants[g].principal in s.principals
  }

  lemma {:induction false} AlwaysHeld(c: Config, rs: seq<Request>)
    ensures GrantsHaveHolders(Run(c, rs))
  {
    if rs != [] {
      var init, last := rs[..|rs| - 1], rs[|rs| - 1];
      AlwaysHeld(c, init);
      StepKeepsHolders(Run(c, init), last);
    }
  }

  lemma StepKeepsHolders(s: State, r: Request)
    requires GrantsHaveHolders(s)
    ensures GrantsHaveHolders(Step(s, r))
  {
  }

  /** The service, its one grant and its key are as `r` made them. */
  ghost predicate ServiceIntact(s: State, r: Request)
    requires r.IssueService?
  {
    PrincipalIntact(s, r) && GrantIntact(s, r) && KeyIntact(s, r)
  }

  ghost predicate PrincipalIntact(s: State, r: Request)
    requires r.IssueService?
  {
    r.pid in s.principals && !s.principals[r.pid].isUser && !s.principals[r.pid].disabled
  }

  ghost predicate GrantIntact(s: State, r: Request)
    requires r.IssueService?
  {
    && r.gid in s.grants && s.grants[r.gid] == Grant(r.pid, ServiceRow(r.app, r.patterns, r.scope), r.expiresAt, false)
    && (forall g :: g in s.grants && s.grants[g].principal == r.pid ==> g == r.gid)
  }

  ghost predicate KeyIntact(s: State, r: Request)
    requires r.IssueService?
  {
    r.cid in s.credentials && s.credentials[r.cid] == Credential(Some(r.pid), r.issuer.id, [], r.expiresAt, false)
  }

  /** `q` neither adds to nor takes from the service that `r` made. */
  predicate LeavesAlone(q: Request, r: Request)
    requires r.IssueService?
  {
    match q
    case CreateGrant(_, to, _, _) => to != r.pid
    case DeleteGrant(gid) => gid != r.gid
    case DeletePrincipal(pid) => pid != r.pid
    case SetDisabled(pid, _) => pid != r.pid
    case Revoke(cid) => cid != r.cid
    case RevokeKey(_, _, cid) => cid != r.cid
    case _ => true
  }

  lemma ServiceStartsIntact(s: State, r: Request)
    requires r.IssueService? && r.writes >= 3 && Step(s, r) != s && GrantsHaveHolders(s)
    ensures ServiceIntact(Step(s, r), r)
  {
  }

  lemma PrincipalStaysIntact(s: State, q: Request, r: Request)
    requires r.IssueService? && PrincipalIntact(s, r) && LeavesAlone(q, r)
    ensures PrincipalIntact(Step(s, q), r)
  {
  }

  lemma GrantStaysIntact(s: State, q: Request, r: Request)
    requires r.IssueService? && PrincipalIntact(s, r) && GrantIntact(s, r) && LeavesAlone(q, r)
    ensures GrantIntact(Step(s, q), r)
  {
  }

  lemma KeyStaysIntact(s: State, q: Request, r: Request)
    requires r.IssueService? && KeyIntact(s, r) && LeavesAlone(q, r)
    ensures KeyIntact(Step(s, q), r)
  {
  }

  lemma ServiceStaysIntact(s: State, q: Request, r: Request)
    requires r.IssueService? && ServiceIntact(s, r) && LeavesAlone(q, r)
    ensures ServiceIntact(Step(s, q), r)
  {
    PrincipalStaysIntact(s, q, r);
    GrantStaysIntact(s, q, r);
    KeyStaysIntact(s, q, r);
  }

  lemma RunExtends(c: Config, rs: seq<Request>, r: Request)
    ensures Run(c, rs + [r]) == Step(Run(c, rs), r)
  {
    assert (rs + [r])[..|rs + [r]| - 1] == rs;
  }

  lemma LastStep(c: Config, rs: seq<Request>, later: seq<Request>)
    requires later != []
    ensures Run(c, rs + later) == Step(Run(c, rs + later[..|later| - 1]), later[|later| - 1])
  {
    RunExtends(c, rs + later[..|later| - 1], later[|later| - 1]);
    assert rs + later == rs + later[..|later| - 1] + [later[|later| - 1]];
  }

  lemma {:induction false} ServiceIsIntactAfter(c: Config, rs: seq<Request>, r: Request, later: seq<Request>)
    requires r.IssueService? && r.writes >= 3 && Step(Run(c, rs), r) != Run(c, rs)
    requires forall q :: q in later ==> LeavesAlone(q, r)
    ensures ServiceIntact(Run(c, rs + [r] + later), r)
  {
    if later == [] {
      AlwaysHeld(c, rs);
      RunExtends(c, rs, r);
      ServiceStartsIntact(Run(c, rs), r);
      assert rs + [r] + later == rs + [r];
    } else {
      var init, last := later[..|later| - 1], later[|later| - 1];
      ServiceIsIntactAfter(c, rs, r, init);
      ServiceStaysIntact(Run(c, rs + [r] + init), last, r);
      LastStep(c, rs + [r], later);
    }
  }

  lemma ServiceEntriesAreRequested(s: State, r: Request, app: string, reading: seq<Id>, e: Entry)
    requires r.IssueService? && ServiceIntact(s, r) && NotExpired(s, r.expiresAt) && IsReading(s, r.pid, app, reading)
    ensures e in Union(Rows(s, reading), IsBootstrapAdmin(s, r.pid), RolesOf(s, app))
       <==> app == r.app && e in AsEntries(ServiceGrants(r.patterns, r.scope))
  {
    var row, roles, rows := ServiceRow(r.app, r.patterns, r.scope), RolesOf(s, app), Rows(s, reading);
    AllGrantEntriesMembers(rows, roles, e);
    GrantEntriesIgnoreRoles(row, roles);
    ServiceRowReadsBack(r.app, r.patterns, r.scope);
    forall g | g in rows ensures g == row && app == r.app {
      var i :| 0 <= i < |rows| && rows[i] == g;
      assert reading[i] in reading;
    }
    if app == r.app {
      var i :| 0 <= i < |reading| && reading[i] == r.gid;
      assert rows[i] == row;
    }
  }

  /**
   * Until it expires or somebody touches it, a service's key can do exactly what was asked for it, in
   * the app it was asked for, and nothing in any other.
   */
  lemma NewServiceHoldsWhatWasAsked(
      c: Config, rs: seq<Request>, r: Request, later: seq<Request>,
      app: string, reading: seq<Id>, action: string, scope: Option<Scope>)
    requires r.IssueService? && r.writes >= 3 && Step(Run(c, rs), r) != Run(c, rs)
    requires forall q :: q in later ==> LeavesAlone(q, r)
    requires NotExpired(Run(c, rs + [r] + later), r.expiresAt) && IsReading(Run(c, rs + [r] + later), r.pid, app, reading)
    ensures var token := TokenFromKey(Run(c, rs + [r] + later), app, r.cid, reading);
            && token.Some?
            && (Permits(token.value.permissions, action, scope)
                <==> app == r.app && Permits(AsEntries(ServiceGrants(r.patterns, r.scope)), action, scope))
  {
    var t := Run(c, rs + [r] + later);
    ServiceIsIntactAfter(c, rs, r, later);
    var union := Union(Rows(t, reading), IsBootstrapAdmin(t, r.pid), RolesOf(t, app));
    forall e ensures e in union <==> app == r.app && e in AsEntries(ServiceGrants(r.patterns, r.scope)) {
      ServiceEntriesAreRequested(t, r, app, reading, e);
    }
    OneScopeLosesNothing(union, r.scope, FromGrant);
    assert TokenFromKey(t, app, r.cid, reading).Some?;
  }
}
