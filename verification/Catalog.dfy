/**
 * Schema puts and policy edits interleaving: each policy request checks first and writes later, with
 * other requests in between.
 */
module Catalog {
  import opened Common
  import opened Permissions
  import opened Schema

  const BUILTIN_ADMIN := "admin"

  /** Some action of the app's current catalog is matched by the pattern. */
  ghost predicate AllowedIn(t: Tables, app: string, pattern: string) {
    pattern == "*" || exists a :: (app, a) in t.actions && MatchAction(pattern, a)
  }

  /** The live registry: an app is known while any schema table has a row of it. */
  ghost predicate KnownApp(t: Tables, app: string) {
    exists name: string :: (app, name) in t.scopes || (app, name) in t.actions || (app, name) in t.roles
  }

  /** `reading` is the catalog query's answer. */
  ghost predicate IsCatalog(t: Tables, app: string, reading: seq<string>) {
    forall a :: a in reading <==> (app, a) in t.actions
  }

  predicate AllAllowed(patterns: seq<string>, catalog: seq<string>) {
    forall p :: p in patterns ==> IsActionAllowed(p, catalog)
  }

  predicate SchemaAccepted(d: AppSchema) {
    forall r :: r in d.roles ==> AllAllowed(r.permissions, Names(d.actions))
  }

  /** The body's roles against the body's own actions; the first offending pattern is reported. */
  method ValidateSchema(d: AppSchema) returns (unknown: Option<(string, string)>)
    ensures unknown.None? <==> SchemaAccepted(d)
    ensures unknown.Some? ==> exists r ::
              r in d.roles && r.key == unknown.value.0 && unknown.value.1 in r.permissions
              && !IsActionAllowed(unknown.value.1, Names(d.actions))
  {
    var catalog: seq<string> := [];
    for i := 0 to |d.actions|
      invariant catalog == Names(d.actions)[..i]
    {
      catalog := catalog + [d.actions[i].name];
    }
    assert catalog == Names(d.actions);
    for i := 0 to |d.roles|
      invariant forall k :: 0 <= k < i ==> AllAllowed(d.roles[k].permissions, Names(d.actions))
    {
      var role := d.roles[i];
      for j := 0 to |role.permissions|
        invariant forall k :: 0 <= k < j ==> IsActionAllowed(role.permissions[k], Names(d.actions))
      {
        if !IsActionAllowed(role.permissions[j], catalog) {
          assert role in d.roles && role.permissions[j] in role.permissions;
          assert !AllAllowed(role.permissions, Names(d.actions));
          return Some((role.key, role.permissions[j]));
        }
      }
    }
    return None;
  }

  lemma CatalogReadingDecides(t: Tables, app: string, reading: seq<string>, pattern: string)
    requires IsCatalog(t, app, reading)
    ensures IsActionAllowed(pattern, reading) <==> AllowedIn(t, app, pattern)
  {
    AllowedIffMatchesCatalog(pattern, reading);
  }

  // ── The system ─────────────────────────────────────────────────────────────

  /** A policy request whose checks have passed and whose write is still to come. */
  datatype Pending = Upsert(app: string, role: RoleDecl) | Delete(app: string, key: string)

  datatype State = State(tables: Tables, pending: map<nat, Pending>, now: int)

  datatype Event =
    | PutSchema(app: string, schema: AppSchema)
    | CheckCreate(id: nat, app: string, role: RoleDecl, catalog: seq<string>)
    | CheckUpdate(id: nat, app: string, role: RoleDecl, catalog: seq<string>)
    | CheckDelete(id: nat, app: string, key: string)
    | Commit(id: nat)
    | Wait(seconds: nat)

  predicate IsCustom(t: Tables, app: string, key: string) {
    (app, key) in t.roles && t.roles[(app, key)].origin == Custom
  }

  ghost predicate PolicyAccepted(t: Tables, app: string, role: RoleDecl, catalog: seq<string>) {
    KnownApp(t, app) && IsCatalog(t, app, catalog) && role.permissions != [] && role.key != BUILTIN_ADMIN && AllAllowed(role.permissions, catalog)
  }

  function Apply(t: Tables, p: Pending, now: int): Tables {
    match p
    case Upsert(app, role) => t.(roles := UpsertRoleRow(t.roles, app, role, Custom, now))
    case Delete(app, key) => t.(roles := t.roles - {(app, key)})
  }

  ghost function Step(s: State, e: Event): State {
    match e
    case PutSchema(app, d) =>
      if SchemaAccepted(d) then s.(tables := ExecuteAll(s.tables, app, Batch(d), s.now)) else s
    case CheckCreate(id, app, role, catalog) =>
      if id in s.pending || !PolicyAccepted(s.tables, app, role, catalog) || (app, role.key) in s.tables.roles then s
      else s.(pending := s.pending[id := Upsert(app, role)])
    case CheckUpdate(id, app, role, catalog) =>
      if id in s.pending || !PolicyAccepted(s.tables, app, role, catalog) || !IsCustom(s.tables, app, role.key) then s
      else s.(pending := s.pending[id := Upsert(app, role)])
    case CheckDelete(id, app, key) =>
      if id in s.pending || !KnownApp(s.tables, app) || !IsCustom(s.tables, app, key) then s else s.(pending := s.pending[id := Delete(app, key)])
    case Commit(id) =>
      if id !in s.pending then s
      else s.(tables := Apply(s.tables, s.pending[id], s.now), pending := s.pending - {id})
    case Wait(seconds) => s.(now := s.now + seconds)
  }

  ghost function Run(events: seq<Event>): State {
    if events == [] then State(Tables(map[], map[], map[]), map[], 0)
    else Step(Run(events[..|events| - 1]), events[|events| - 1])
  }

  // ── App-origin roles always fit the catalog ────────────────────────────────

  ghost predicate CatalogHolds(t: Tables) {
    forall k, p :: k in t.roles && t.roles[k].origin == FromApp && p in t.roles[k].permissions ==> AllowedIn(t, k.0, p)
  }

  lemma OtherAppsStayAllowed(t: Tables, u: Tables, app: string, d: AppSchema, now: int, a: string, p: string)
    requires IsReconciled(t, u, app, d, now) && a != app && AllowedIn(t, a, p)
    ensures AllowedIn(u, a, p)
  {
    if p != "*" {
      var act :| (a, act) in t.actions && MatchAction(p, act);
      assert (a, act) in u.actions;
    }
  }

  lemma AcceptedPatternsAreAllowed(t: Tables, u: Tables, app: string, d: AppSchema, now: int, p: string)
    requires IsReconciled(t, u, app, d, now) && IsActionAllowed(p, Names(d.actions))
    ensures AllowedIn(u, app, p)
  {
    AllowedIffMatchesCatalog(p, Names(d.actions));
    if p != "*" {
      var a :| a in Names(d.actions) && MatchAction(p, a);
      DeclaredNames(d.actions, a);
      assert (app, a) in u.actions;
    }
  }

  lemma {:induction false} DeclaredRoleIsListed(rs: seq<RoleDecl>, k: string)
    requires k in DeclaredRoles(rs)
    ensures DeclaredRoles(rs)[k] in rs && DeclaredRoles(rs)[k].key == k
  {
    if rs[|rs| - 1].key != k {
      DeclaredRoleIsListed(rs[..|rs| - 1], k);
    }
  }

  lemma PutKeepsCatalog(t: Tables, app: string, d: AppSchema, now: int)
    requires CatalogHolds(t) && SchemaAccepted(d)
    ensures CatalogHolds(ExecuteAll(t, app, Batch(d), now))
  {
    var u := ExecuteAll(t, app, Batch(d), now);
    BatchReconciles(t, app, d, now);
    forall k, p | k in u.roles && u.roles[k].origin == FromApp && p in u.roles[k].permissions ensures AllowedIn(u, k.0, p) {
      assert k == (k.0, k.1);
      if k.0 != app {
        assert k in t.roles && u.roles[k] == t.roles[k];
        OtherAppsStayAllowed(t, u, app, d, now, k.0, p);
      } else {
        assert k.1 in DeclaredRoles(d.roles);
        DeclaredRoleIsListed(d.roles, k.1);
        AcceptedPatternsAreAllowed(t, u, app, d, now, p);
      }
    }
  }

  lemma CommitKeepsCatalog(t: Tables, p: Pending, now: int)
    requires CatalogHolds(t)
    ensures CatalogHolds(Apply(t, p, now))
  {
    var u := Apply(t, p, now);
    assert u.actions == t.actions;
    forall k, q | k in u.roles && u.roles[k].origin == FromApp && q in u.roles[k].permissions ensures AllowedIn(u, k.0, q) {
      assert AllowedIn(t, k.0, q);
    }
  }

  /** In every interleaving. */
  lemma {:induction false} CatalogAlwaysHolds(events: seq<Event>)
    ensures CatalogHolds(Run(events).tables)
  {
    if events != [] {
      var init, last := events[..|events| - 1], events[|events| - 1];
      var s := Run(init);
      CatalogAlwaysHolds(init);
      if last.PutSchema? && SchemaAccepted(last.schema) {
        PutKeepsCatalog(s.tables, last.app, last.schema, s.now);
      } else if last.Commit? && last.id in s.pending {
        CommitKeepsCatalog(s.tables, s.pending[last.id], s.now);
      }
    }
  }

  // ── What a policy request checks and writes ────────────────────────────────

  /** A policy may be written if the app is known, it names actions, all in the catalog, and no built-in role's key. */
  ghost predicate IsFitPolicy(t: Tables, app: string, role: RoleDecl) {
    && KnownApp(t, app) && role.permissions != [] && role.key != "admin"
    && forall p :: p in role.permissions ==> AllowedIn(t, app, p)
  }

  /** Each check passes exactly for what its request may do, and then only notes the write that is to come. */
  lemma PolicyCheckPassesIff(s: State, id: nat, app: string, role: RoleDecl, catalog: seq<string>)
    requires id !in s.pending && IsCatalog(s.tables, app, catalog)
    ensures Step(s, CheckCreate(id, app, role, catalog)) ==
              if IsFitPolicy(s.tables, app, role) && (app, role.key) !in s.tables.roles
              then s.(pending := s.pending[id := Upsert(app, role)]) else s
    ensures Step(s, CheckUpdate(id, app, role, catalog)) ==
              if IsFitPolicy(s.tables, app, role) && IsCustom(s.tables, app, role.key)
              then s.(pending := s.pending[id := Upsert(app, role)]) else s
    ensures Step(s, CheckDelete(id, app, role.key)) ==
              if KnownApp(s.tables, app) && IsCustom(s.tables, app, role.key)
              then s.(pending := s.pending[id := Delete(app, role.key)]) else s
  {
    forall p ensures IsActionAllowed(p, catalog) <==> AllowedIn(s.tables, app, p) {
      CatalogReadingDecides(s.tables, app, catalog, p);
    }
  }

  /** The write touches one row: an upsert makes it the requested custom one, keeping its age; a delete removes it. */
  lemma PolicyWriteIsExact(s: State, id: nat)
    requires id in s.pending
    ensures var t, u := s.tables, Step(s, Commit(id)).tables;
            && u.scopes == t.scopes && u.actions == t.actions
            && Step(s, Commit(id)).pending == s.pending - {id}
            && match s.pending[id]
               case Delete(app, key) => u.roles == t.roles - {(app, key)}
               case Upsert(app, role) =>
                 var k := (app, role.key);
                 && u.roles.Keys == t.roles.Keys + {k}
                 && (forall other :: other in t.roles && other != k ==> u.roles[other] == t.roles[other])
                 && u.roles[k].name == role.name && u.roles[k].description == role.description
                 && u.roles[k].permissions == role.permissions && u.roles[k].origin == Custom
                 && u.roles[k].createdAt == if k in t.roles then t.roles[k].createdAt else s.now
  {
  }

  // ── What interleaving can still do ─────────────────────────────────────────

  /** The role a pending write is about to put or remove. */
  function Target(p: Pending): (string, string) {
    match p
    case Upsert(app, role) => (app, role.key)
    case Delete(app, key) => (app, key)
  }

  /**
   * A declared role outlives a pending policy write exactly when that write has another target: the
   * write looks at no origin, so an edit turns the role into a custom one and a delete erases it.
   */
  lemma DeclaredRoleOutlivesIff(s: State, id: nat, app: string, k: string)
    requires id in s.pending && k in ReadRoles(s.tables, app)
    ensures var end := Step(s, Commit(id));
            && (k in ReadRoles(end.tables, app) <==> Target(s.pending[id]) != (app, k))
            && (k in ReadRoles(end.tables, app) ==> ReadRoles(end.tables, app)[k] == ReadRoles(s.tables, app)[k])
            && (Target(s.pending[id]) == (app, k) ==>
                  if s.pending[id].Delete? then (app, k) !in end.tables.roles else IsCustom(end.tables, app, k))
  {
  }

  /** A policy edit or delete checked before a put declares its key takes the declared role away. */
  lemma RacingPolicyTakesTheRole(s: State, id: nat, app: string, k: string, d: AppSchema)
    requires id in s.pending && Target(s.pending[id]) == (app, k)
    requires SchemaAccepted(d) && k in DeclaredRoles(d.roles)
    ensures var put := Step(s, PutSchema(app, d));
            var end := Step(put, Commit(id));
            && k in ReadRoles(put.tables, app) && k !in ReadRoles(end.tables, app)
            && if s.pending[id].Delete? then (app, k) !in end.tables.roles else IsCustom(end.tables, app, k)
  {
    ReadsBackTheDeclaration(s.tables, app, d, s.now);
    DeclaredRoleOutlivesIff(Step(s, PutSchema(app, d)), id, app, k);
  }

  lemma RunExtends(events: seq<Event>, e: Event)
    ensures Run(events + [e]) == Step(Run(events), e)
  {
    assert (events + [e])[..|events + [e]|-1] == events;
  }

  /** An app registers with a schema of its own; here one without actions or roles. */
  lemma Registered(app: string) returns (events: seq<Event>)
    ensures Run(events).pending == map[]
    ensures KnownApp(Run(events).tables, app) && IsCatalog(Run(events).tables, app, [])
    ensures forall k :: (app, k) !in Run(events).tables.roles
  {
    var d := AppSchema([NamedText("tenant", None)], [], []);
    events := [PutSchema(app, d)];
    RunExtends([], PutSchema(app, d));
    assert [] + events == events;
    BatchReconciles(Run([]).tables, app, d, 0);
    DeclaredNames(d.scopes, d.scopes[0].name);
    assert Names(d.scopes)[0] in Names(d.scopes);
    assert (app, d.scopes[0].name) in Run(events).tables.scopes;
  }

  lemma Checked(app: string, role: RoleDecl) returns (events: seq<Event>)
    requires role.permissions == ["*"] && role.key != BUILTIN_ADMIN
    ensures Run(events).pending == map[0 := Upsert(app, role)]
    ensures KnownApp(Run(events).tables, app)
  {
    var registered := Registered(app);
    var check := CheckCreate(0, app, role, []);
    RunExtends(registered, check);
    events := registered + [check];
  }

  /** The race is reached from nothing by creating a policy ... */
  lemma RacingCreateIsReached(app: string, role: RoleDecl, d: AppSchema) returns (events: seq<Event>)
    requires role.permissions == ["*"] && role.key != BUILTIN_ADMIN
    requires SchemaAccepted(d) && role.key in DeclaredRoles(d.roles)
    ensures role.key in ReadRoles(Run(events).tables, app)
    ensures IsCustom(Run(events + [Commit(0)]).tables, app, role.key)
  {
    var checked := Checked(app, role);
    events := checked + [PutSchema(app, d)];
    RunExtends(checked, PutSchema(app, d));
    RacingPolicyTakesTheRole(Run(checked), 0, app, role.key, d);
    RunExtends(events, Commit(0));
  }

  /** ... and by deleting one. */
  lemma RacingDeleteIsReached(app: string, role: RoleDecl, d: AppSchema) returns (events: seq<Event>)
    requires role.permissions == ["*"] && role.key != BUILTIN_ADMIN
    requires SchemaAccepted(d) && role.key in DeclaredRoles(d.roles)
    ensures role.key in ReadRoles(Run(events).tables, app)
    ensures (app, role.key) !in Run(events + [Commit(0)]).tables.roles
  {
    var checked := Checked(app, role);
    var custom := checked + [Commit(0)];
    RunExtends(checked, Commit(0));
    assert (app, role.key) in Run(custom).tables.roles;
    var check := CheckDelete(0, app, role.key);
    RunExtends(custom, check);
    assert Run(custom + [check]).pending == map[0 := Delete(app, role.key)];
    events := custom + [check] + [PutSchema(app, d)];
    RunExtends(custom + [check], PutSchema(app, d));
    RacingPolicyTakesTheRole(Run(custom + [check]), 0, app, role.key, d);
    RunExtends(events, Commit(0));
  }

  /** After a put the catalog admits exactly what the declared actions admit. */
  lemma PutAllowsIff(t: Tables, app: string, d: AppSchema, now: int, p: string)
    ensures AllowedIn(ExecuteAll(t, app, Batch(d), now), app, p) <==> IsActionAllowed(p, Names(d.actions))
  {
    var u := ExecuteAll(t, app, Batch(d), now);
    BatchReconciles(t, app, d, now);
    forall a ensures a in Names(d.actions) <==> (app, a) in u.actions {
      DeclaredNames(d.actions, a);
    }
    CatalogReadingDecides(u, app, Names(d.actions), p);
  }

  /** So a custom policy left alone still fits the catalog exactly when the declared actions admit its patterns. */
  lemma CustomPolicyFitsIff(t: Tables, app: string, key: string, d: AppSchema, now: int)
    requires IsCustom(t, app, key) && key !in DeclaredRoles(d.roles)
    ensures var u := ExecuteAll(t, app, Batch(d), now);
            && IsCustom(u, app, key) && u.roles[(app, key)] == t.roles[(app, key)]
            && ((forall p :: p in u.roles[(app, key)].permissions ==> AllowedIn(u, app, p))
                <==> AllAllowed(t.roles[(app, key)].permissions, Names(d.actions)))
  {
    var u := ExecuteAll(t, app, Batch(d), now);
    BatchReconciles(t, app, d, now);
    assert u.roles[(app, key)] == t.roles[(app, key)];
    forall p ensures AllowedIn(u, app, p) <==> IsActionAllowed(p, Names(d.actions)) {
      PutAllowsIff(t, app, d, now, p);
    }
  }

  /** A put that declares no action takes the catalog from under every custom pattern but `*`. */
  lemma CustomPolicyCanOutliveItsActions(t: Tables, app: string, key: string, d: AppSchema, now: int)
    requires IsCustom(t, app, key) && key !in DeclaredRoles(d.roles) && d.actions == []
    requires exists p :: p in t.roles[(app, key)].permissions && p != "*"
    ensures var u := ExecuteAll(t, app, Batch(d), now);
            IsCustom(u, app, key) && exists p :: p in u.roles[(app, key)].permissions && !AllowedIn(u, app, p)
  {
    CustomPolicyFitsIff(t, app, key, d, now);
    var p :| p in t.roles[(app, key)].permissions && p != "*";
    assert !IsActionAllowed(p, Names(d.actions));
  }
}
