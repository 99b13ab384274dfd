/**
 * Reconciling an app's declared vocabulary: the statement batch that upserts and prunes the scope,
 * action and role tables.
 */
module Schema {
  import opened Common

  datatype RoleOrigin = FromApp | Custom

  datatype RoleRow = RoleRow(
    name: string, description: Option<string>, permissions: seq<string>, origin: RoleOrigin, createdAt: int)

  /** Rows are keyed by app and name. Scopes and actions carry an optional text. */
  type TextTable = map<(string, string), Option<string>>
  datatype Tables = Tables(scopes: TextTable, actions: TextTable, roles: map<(string, string), RoleRow>)

  datatype NamedText = NamedText(name: string, text: Option<string>)
  datatype RoleDecl = RoleDecl(key: string, name: string, description: Option<string>, permissions: seq<string>)
  datatype AppSchema = AppSchema(scopes: seq<NamedText>, actions: seq<NamedText>, roles: seq<RoleDecl>)

  // ── Statements ─────────────────────────────────────────────────────────────

  datatype Statement =
    | UpsertScope(scope: NamedText)
    | PruneScopes(keep: seq<string>)
    | UpsertAction(action: NamedText)
    | PruneActions(keep: seq<string>)
    | UpsertAppRole(role: RoleDecl)
    | PruneAppRoles(keep: seq<string>)

  function PruneNotIn(t: TextTable, app: string, keep: seq<string>): TextTable {
    map k | k in t && (k.0 != app || k.1 in keep) :: t[k]
  }

  function UpsertRoleRow(
      roles: map<(string, string), RoleRow>, app: string, r: RoleDecl, origin: RoleOrigin, now: int)
    : map<(string, string), RoleRow>
  {
    var key := (app, r.key);
    var createdAt := if key in roles then roles[key].createdAt else now;
    roles[key := RoleRow(r.name, r.description, r.permissions, origin, createdAt)]
  }

  function Execute(t: Tables, app: string, s: Statement, now: int): Tables {
    match s
    case UpsertScope(x) => t.(scopes := t.scopes[(app, x.name) := x.text])
    case PruneScopes(keep) => t.(scopes := PruneNotIn(t.scopes, app, keep))
    case UpsertAction(x) => t.(actions := t.actions[(app, x.name) := x.text])
    case PruneActions(keep) => t.(actions := PruneNotIn(t.actions, app, keep))
    case UpsertAppRole(r) => t.(roles := UpsertRoleRow(t.roles, app, r, FromApp, now))
    case PruneAppRoles(keep) =>
      t.(roles := map k | k in t.roles && (k.0 != app || t.roles[k].origin == Custom || k.1 in keep) :: t.roles[k])
  }

  function ExecuteAll(t: Tables, app: string, batch: seq<Statement>, now: int): Tables {
    if batch == [] then t
    else Execute(ExecuteAll(t, app, batch[..|batch| - 1], now), app, batch[|batch| - 1], now)
  }

  function Names(xs: seq<NamedText>): seq<string> {
    seq(|xs|, i requires 0 <= i < |xs| => xs[i].name)
  }

  function RoleKeys(rs: seq<RoleDecl>): seq<string> {
    seq(|rs|, i requires 0 <= i < |rs| => rs[i].key)
  }

  function ScopeUpserts(xs: seq<NamedText>): seq<Statement> {
    seq(|xs|, i requires 0 <= i < |xs| => UpsertScope(xs[i]))
  }

  function ActionUpserts(xs: seq<NamedText>): seq<Statement> {
    seq(|xs|, i requires 0 <= i < |xs| => UpsertAction(xs[i]))
  }

  function RoleUpserts(rs: seq<RoleDecl>): seq<Statement> {
    seq(|rs|, i requires 0 <= i < |rs| => UpsertAppRole(rs[i]))
  }

  function Batch(d: AppSchema): seq<Statement> {
    ScopeUpserts(d.scopes) + [PruneScopes(Names(d.scopes))]
    + (ActionUpserts(d.actions) + [PruneActions(Names(d.actions))])
    + (RoleUpserts(d.roles) + [PruneAppRoles(RoleKeys(d.roles))])
  }

  // ── The database ───────────────────────────────────────────────────────────

  class SchemaDb {
    var tables: Tables

    constructor (tables: Tables)
      ensures this.tables == tables
    {
      this.tables := tables;
    }

    /** One atomic batch, in order. */
    method RunBatch(app: string, batch: seq<Statement>, now: int)
      modifies this
      ensures tables == ExecuteAll(old(tables), app, batch, now)
    {
      for i := 0 to |batch|
        invariant tables == ExecuteAll(old(tables), app, batch[..i], now)
      {
        assert batch[..i + 1][..i] == batch[..i];
        tables := Execute(tables, app, batch[i], now);
      }
      assert batch[..|batch|] == batch;
    }

    method ReconcileAppSchema(app: string, d: AppSchema, now: int)
      modifies this
      ensures IsReconciled(old(tables), tables, app, d, now)
    {
      BatchReconciles(tables, app, d, now);
      var batch := BuildBatch(d);
      RunBatch(app, batch, now);
    }
  }

  method BuildBatch(d: AppSchema) returns (statements: seq<Statement>)
    ensures statements == Batch(d)
  {
    statements := [];
    for i := 0 to |d.scopes|
      invariant statements == ScopeUpserts(d.scopes)[..i]
    {
      statements := statements + [UpsertScope(d.scopes[i])];
    }
    statements := statements + [PruneScopes(Names(d.scopes))];
    ghost var first := statements;
    for i := 0 to |d.actions|
      invariant statements == first + ActionUpserts(d.actions)[..i]
    {
      statements := statements + [UpsertAction(d.actions[i])];
    }
    statements := statements + [PruneActions(Names(d.actions))];
    assert statements == first + (ActionUpserts(d.actions) + [PruneActions(Names(d.actions))]);
    ghost var second := statements;
    for i := 0 to |d.roles|
      invariant statements == second + RoleUpserts(d.roles)[..i]
    {
      statements := statements + [UpsertAppRole(d.roles[i])];
    }
    statements := statements + [PruneAppRoles(RoleKeys(d.roles))];
    assert statements == second + (RoleUpserts(d.roles) + [PruneAppRoles(RoleKeys(d.roles))]);
  }

  // ── What reconciling means ─────────────────────────────────────────────────

  /** The last declaration of each name. */
  function Declared(xs: seq<NamedText>): map<string, Option<string>> {
    if xs == [] then map[]
    else Declared(xs[..|xs| - 1])[xs[|xs| - 1].name := xs[|xs| - 1].text]
  }

  function DeclaredRoles(rs: seq<RoleDecl>): map<string, RoleDecl> {
    if rs == [] then map[]
    else DeclaredRoles(rs[..|rs| - 1])[rs[|rs| - 1].key := rs[|rs| - 1]]
  }

  /** One app's part of a table is exactly what was declared, and nobody else's part moved. */
  ghost predicate TextReconciled(before: TextTable, after: TextTable, app: string, xs: seq<NamedText>) {
    && (forall a, n :: a != app ==> ((a, n) in after <==> (a, n) in before))
    && (forall a, n :: a != app && (a, n) in before ==> after[(a, n)] == before[(a, n)])
    && (forall n :: (app, n) in after <==> n in Declared(xs))
    && (forall n :: n in Declared(xs) ==> after[(app, n)] == Declared(xs)[n])
  }

  ghost predicate RolesReconciled(
      before: map<(string, string), RoleRow>, after: map<(string, string), RoleRow>,
      app: string, rs: seq<RoleDecl>, now: int)
  {
    && (forall a, k :: a != app ==> ((a, k) in after <==> (a, k) in before))
    && (forall a, k :: a != app && (a, k) in before ==> after[(a, k)] == before[(a, k)])
    && (forall k :: (app, k) in after <==>
          k in DeclaredRoles(rs) || ((app, k) in before && before[(app, k)].origin == Custom))
    && (forall k :: k in DeclaredRoles(rs) ==> after[(app, k)] == RoleRow(
          DeclaredRoles(rs)[k].name, DeclaredRoles(rs)[k].description, DeclaredRoles(rs)[k].permissions, FromApp,
          if (app, k) in before then before[(app, k)].createdAt else now))
    && (forall k :: k !in DeclaredRoles(rs) && (app, k) in after ==> after[(app, k)] == before[(app, k)])
  }

  /** Declared rows, kept custom roles, original creation times, other apps untouched, and nothing more. */
  ghost predicate IsReconciled(before: Tables, after: Tables, app: string, d: AppSchema, now: int) {
    && TextReconciled(before.scopes, after.scopes, app, d.scopes)
    && TextReconciled(before.actions, after.actions, app, d.actions)
    && RolesReconciled(before.roles, after.roles, app, d.roles, now)
  }

  // ── The batch does it ──────────────────────────────────────────────────────

  lemma {:induction false} ExecuteConcat(t: Tables, app: string, a: seq<Statement>, b: seq<Statement>, now: int)
    ensures ExecuteAll(t, app, a + b, now) == ExecuteAll(ExecuteAll(t, app, a, now), app, b, now)
  {
    if b == [] {
      assert a + b == a;
    } else {
      ExecuteConcat(t, app, a, b[..|b| - 1], now);
      assert (a + b)[..|a + b| - 1] == a + b[..|b| - 1];
    }
  }

  /** A table with the declarations laid over one app's part. */
  function Overlay(t: TextTable, app: string, xs: seq<NamedText>): TextTable {
    if xs == [] then t
    else Overlay(t, app, xs[..|xs| - 1])[(app, xs[|xs| - 1].name) := xs[|xs| - 1].text]
  }

  lemma {:induction false} ScopeUpsertsOverlay(t: Tables, app: string, xs: seq<NamedText>, now: int)
    ensures ExecuteAll(t, app, ScopeUpserts(xs), now) == t.(scopes := Overlay(t.scopes, app, xs))
  {
    if xs != [] {
      ScopeUpsertsOverlay(t, app, xs[..|xs| - 1], now);
      assert ScopeUpserts(xs)[..|xs| - 1] == ScopeUpserts(xs[..|xs| - 1]);
    }
  }

  lemma {:induction false} ActionUpsertsOverlay(t: Tables, app: string, xs: seq<NamedText>, now: int)
    ensures ExecuteAll(t, app, ActionUpserts(xs), now) == t.(actions := Overlay(t.actions, app, xs))
  {
    if xs != [] {
      ActionUpsertsOverlay(t, app, xs[..|xs| - 1], now);
      assert ActionUpserts(xs)[..|xs| - 1] == ActionUpserts(xs[..|xs| - 1]);
    }
  }

  lemma {:induction false} OverlayRows(t: TextTable, app: string, xs: seq<NamedText>, a: string, n: string)
    ensures (a, n) in Overlay(t, app, xs) <==> (a, n) in t || (a == app && n in Declared(xs))
    ensures a == app && n in Declared(xs) ==> Overlay(t, app, xs)[(a, n)] == Declared(xs)[n]
    ensures !(a == app && n in Declared(xs)) && (a, n) in t ==> Overlay(t, app, xs)[(a, n)] == t[(a, n)]
  {
    if xs != [] {
      OverlayRows(t, app, xs[..|xs| - 1], a, n);
    }
  }

  lemma {:induction false} DeclaredNames(xs: seq<NamedText>, n: string)
    ensures n in Declared(xs) <==> n in Names(xs)
  {
    if xs != [] {
      DeclaredNames(xs[..|xs| - 1], n);
      assert Names(xs) == Names(xs[..|xs| - 1]) + [xs[|xs| - 1].name];
    }
  }

  lemma OverlayThenPruneReconciles(t: TextTable, app: string, xs: seq<NamedText>)
    ensures TextReconciled(t, PruneNotIn(Overlay(t, app, xs), app, Names(xs)), app, xs)
  {
    forall a, n
      ensures (a, n) in Overlay(t, app, xs) <==> (a, n) in t || (a == app && n in Declared(xs))
      ensures a == app && n in Declared(xs) ==> Overlay(t, app, xs)[(a, n)] == Declared(xs)[n]
      ensures !(a == app && n in Declared(xs)) && (a, n) in t ==> Overlay(t, app, xs)[(a, n)] == t[(a, n)]
      ensures n in Declared(xs) <==> n in Names(xs)
    {
      OverlayRows(t, app, xs, a, n);
      DeclaredNames(xs, n);
    }
  }

  function OverlayRoles(
      roles: map<(string, string), RoleRow>, app: string, rs: seq<RoleDecl>, now: int): map<(string, string), RoleRow>
  {
    if rs == [] then roles
    else UpsertRoleRow(OverlayRoles(roles, app, rs[..|rs| - 1], now), app, rs[|rs| - 1], FromApp, now)
  }

  lemma {:induction false} RoleUpsertsOverlay(t: Tables, app: string, rs: seq<RoleDecl>, now: int)
    ensures ExecuteAll(t, app, RoleUpserts(rs), now) == t.(roles := OverlayRoles(t.roles, app, rs, now))
  {
    if rs != [] {
      RoleUpsertsOverlay(t, app, rs[..|rs| - 1], now);
      assert RoleUpserts(rs)[..|rs| - 1] == RoleUpserts(rs[..|rs| - 1]);
    }
  }

  function DeclaredRow(roles: map<(string, string), RoleRow>, app: string, r: RoleDecl, now: int): RoleRow {
    RoleRow(r.name, r.description, r.permissions, FromApp, if (app, r.key) in roles then roles[(app, r.key)].createdAt else now)
  }

  lemma {:induction false} OverlayRoleRows(
      roles: map<(string, string), RoleRow>, app: string, rs: seq<RoleDecl>, now: int, a: string, k: string)
    ensures k in DeclaredRoles(rs) ==> DeclaredRoles(rs)[k].key == k
    ensures var after := OverlayRoles(roles, app, rs, now);
            if a == app && k in DeclaredRoles(rs) then
              (a, k) in after && after[(a, k)] == DeclaredRow(roles, app, DeclaredRoles(rs)[k], now)
            else (a, k) in after <==> (a, k) in roles
    ensures !(a == app && k in DeclaredRoles(rs)) && (a, k) in roles ==>
              OverlayRoles(roles, app, rs, now)[(a, k)] == roles[(a, k)]
  {
    if rs != [] {
      OverlayRoleRows(roles, app, rs[..|rs| - 1], now, a, k);
    }
  }

  lemma {:induction false} DeclaredRoleKeys(rs: seq<RoleDecl>, k: string)
    ensures k in DeclaredRoles(rs) <==> k in RoleKeys(rs)
  {
    if rs != [] {
      DeclaredRoleKeys(rs[..|rs| - 1], k);
      assert RoleKeys(rs) == RoleKeys(rs[..|rs| - 1]) + [rs[|rs| - 1].key];
    }
  }

  lemma OverlayThenPruneReconcilesRoles(
      t: Tables, app: string, rs: seq<RoleDecl>, now: int)
    ensures RolesReconciled(
              t.roles,
              Execute(t.(roles := OverlayRoles(t.roles, app, rs, now)), app, PruneAppRoles(RoleKeys(rs)), now).roles,
              app, rs, now)
  {
    var mid := OverlayRoles(t.roles, app, rs, now);
    forall a, k
      ensures k in DeclaredRoles(rs) <==> k in RoleKeys(rs)
      ensures if a == app && k in DeclaredRoles(rs) then
                (a, k) in mid && mid[(a, k)] == DeclaredRow(t.roles, app, DeclaredRoles(rs)[k], now)
                && DeclaredRoles(rs)[k].key == k
              else (a, k) in mid <==> (a, k) in t.roles
      ensures !(a == app && k in DeclaredRoles(rs)) && (a, k) in t.roles ==> mid[(a, k)] == t.roles[(a, k)]
    {
      OverlayRoleRows(t.roles, app, rs, now, a, k);
      DeclaredRoleKeys(rs, k);
    }
  }

  lemma BatchReconciles(t: Tables, app: string, d: AppSchema, now: int)
    ensures IsReconciled(t, ExecuteAll(t, app, Batch(d), now), app, d, now)
  {
    var s1 := ScopeUpserts(d.scopes) + [PruneScopes(Names(d.scopes))];
    var s2 := ActionUpserts(d.actions) + [PruneActions(Names(d.actions))];
    var s3 := RoleUpserts(d.roles) + [PruneAppRoles(RoleKeys(d.roles))];
    ExecuteConcat(t, app, s1 + s2, s3, now);
    ExecuteConcat(t, app, s1, s2, now);
    ScopesPhase(t, app, d, now);
    var t1 := ExecuteAll(t, app, s1, now);
    ActionsPhase(t1, app, d, now);
    RolesPhase(ExecuteAll(t1, app, s2, now), app, d, now);
  }

  lemma ScopesPhase(t: Tables, app: string, d: AppSchema, now: int)
    ensures var u := ExecuteAll(t, app, ScopeUpserts(d.scopes) + [PruneScopes(Names(d.scopes))], now);
            u.actions == t.actions && u.roles == t.roles && TextReconciled(t.scopes, u.scopes, app, d.scopes)
  {
    ExecuteLast(t, app, ScopeUpserts(d.scopes), PruneScopes(Names(d.scopes)), now);
    ScopeUpsertsOverlay(t, app, d.scopes, now);
    OverlayThenPruneReconciles(t.scopes, app, d.scopes);
  }

  lemma ActionsPhase(t: Tables, app: string, d: AppSchema, now: int)
    ensures var u := ExecuteAll(t, app, ActionUpserts(d.actions) + [PruneActions(Names(d.actions))], now);
            u.scopes == t.scopes && u.roles == t.roles && TextReconciled(t.actions, u.actions, app, d.actions)
  {
    ExecuteLast(t, app, ActionUpserts(d.actions), PruneActions(Names(d.actions)), now);
    ActionUpsertsOverlay(t, app, d.actions, now);
    OverlayThenPruneReconciles(t.actions, app, d.actions);
  }

  lemma RolesPhase(t: Tables, app: string, d: AppSchema, now: int)
    ensures var u := ExecuteAll(t, app, RoleUpserts(d.roles) + [PruneAppRoles(RoleKeys(d.roles))], now);
            u.scopes == t.scopes && u.actions == t.actions && RolesReconciled(t.roles, u.roles, app, d.roles, now)
  {
    ExecuteLast(t, app, RoleUpserts(d.roles), PruneAppRoles(RoleKeys(d.roles)), now);
    RoleUpsertsOverlay(t, app, d.roles, now);
    OverlayThenPruneReconcilesRoles(t, app, d.roles, now);
  }

  lemma ExecuteLast(t: Tables, app: string, batch: seq<Statement>, last: Statement, now: int)
    ensures ExecuteAll(t, app, batch + [last], now) == Execute(ExecuteAll(t, app, batch, now), app, last, now)
  {
    assert (batch + [last])[..|batch + [last]| - 1] == batch;
  }

  // ── Consequences ───────────────────────────────────────────────────────────

  /** The description leaves nothing open: it fixes every row of every table. */
  lemma ReconciledIsUnique(t: Tables, u: Tables, v: Tables, app: string, d: AppSchema, now: int)
    requires IsReconciled(t, u, app, d, now) && IsReconciled(t, v, app, d, now)
    ensures u == v
  {
    SameText(u.scopes, v.scopes, t.scopes, app, d.scopes);
    SameText(u.actions, v.actions, t.actions, app, d.actions);
    forall k | k in u.roles || k in v.roles ensures k in u.roles && k in v.roles && u.roles[k] == v.roles[k] {
      assert k == (k.0, k.1);
    }
    assert u.roles == v.roles;
  }

  lemma SameText(u: TextTable, v: TextTable, t: TextTable, app: string, xs: seq<NamedText>)
    requires TextReconciled(t, u, app, xs) && TextReconciled(t, v, app, xs)
    ensures u == v
  {
    forall k | k in u || k in v ensures k in u && k in v && u[k] == v[k] {
      assert k == (k.0, k.1);
    }
  }

  /** Reconciling again, at any later time, changes nothing. */
  lemma ReconcileIsIdempotent(t: Tables, app: string, d: AppSchema, now: int, later: int)
    ensures var once := ExecuteAll(t, app, Batch(d), now);
            ExecuteAll(once, app, Batch(d), later) == once
  {
    var once := ExecuteAll(t, app, Batch(d), now);
    BatchReconciles(t, app, d, now);
    BatchReconciles(once, app, d, later);
    assert IsReconciled(once, once, app, d, later);
    ReconciledIsUnique(once, ExecuteAll(once, app, Batch(d), later), once, app, d, later);
  }

  /** What the schema endpoint reads back for an app: its scopes, its actions and its app-origin roles. */
  function ReadTexts(t: TextTable, app: string): map<string, Option<string>> {
    map k | k in t && k.0 == app :: k.1 := t[k]
  }

  function ReadRoles(t: Tables, app: string): map<string, RoleDecl> {
    map k | k in t.roles && k.0 == app && t.roles[k].origin == FromApp ::
      k.1 := RoleDecl(k.1, t.roles[k].name, t.roles[k].description, t.roles[k].permissions)
  }

  /** Reading back right after a reconcile returns the declaration, up to ordering and repeats. */
  lemma ReadsBackTheDeclaration(t: Tables, app: string, d: AppSchema, now: int)
    ensures var u := ExecuteAll(t, app, Batch(d), now);
            && ReadTexts(u.scopes, app) == Declared(d.scopes)
            && ReadTexts(u.actions, app) == Declared(d.actions)
            && ReadRoles(u, app) == DeclaredRoles(d.roles)
  {
    var u := ExecuteAll(t, app, Batch(d), now);
    BatchReconciles(t, app, d, now);
    TextsReadBack(t.scopes, u.scopes, app, d.scopes);
    TextsReadBack(t.actions, u.actions, app, d.actions);
    RolesReadBack(t, u, app, d, now);
  }

  lemma TextsReadBack(t: TextTable, u: TextTable, app: string, xs: seq<NamedText>)
    requires TextReconciled(t, u, app, xs)
    ensures ReadTexts(u, app) == Declared(xs)
  {
    forall n ensures n in ReadTexts(u, app) <==> n in Declared(xs) {
      if n in Declared(xs) {
        assert (app, n) in u;
      }
    }
  }

  lemma RolesReadBack(t: Tables, u: Tables, app: string, d: AppSchema, now: int)
    requires RolesReconciled(t.roles, u.roles, app, d.roles, now)
    ensures ReadRoles(u, app) == DeclaredRoles(d.roles)
  {
    forall k ensures k in ReadRoles(u, app) <==> k in DeclaredRoles(d.roles) {
      if k in DeclaredRoles(d.roles) {
        assert (app, k) in u.roles;
      }
    }
    forall k | k in DeclaredRoles(d.roles) ensures ReadRoles(u, app)[k] == DeclaredRoles(d.roles)[k] {
      OverlayRoleRows(t.roles, app, d.roles, now, app, k);
    }
  }
}
