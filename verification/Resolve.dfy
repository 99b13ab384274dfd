/**
 * Resolving a principal's grants into permission entries: role expansion, inline patterns, the
 * bootstrap role, and deduplication under a string key.
 */
module Resolve {
  import opened Common
  import opened Permissions
  import Json

  datatype GrantRow = GrantRow(
    app: Option<string>,
    roleKey: Option<string>,
    permissions: Option<Json.Value>,
    scopeType: Option<string>,
    scopeValue: Option<string>)

  /** An app's own roles: key to action patterns. */
  type AppRoles = map<string, seq<string>>

  const ADMIN_ROLE := "admin"

  /** Built-ins first, so no app row can shadow the cross-app `admin`. */
  function GetRole(roles: AppRoles, key: string): Option<seq<string>> {
    if key == ADMIN_ROLE then Some(["*"])
    else if key in roles then Some(roles[key])
    else None
  }

  function RowScope(scopeType: Option<string>, scopeValue: Option<string>): Option<Scope> {
    if scopeType == None || scopeValue == None then None
    else Some(Scope(scopeType.value, scopeValue.value))
  }

  /** The strings of a JSON array; anything else yields no patterns. */
  function InlinePatterns(json: Json.Value): seq<string> {
    if json.Array? then Strings(json.items) else []
  }

  function Strings(items: seq<Json.Value>): seq<string> {
    if items == [] then []
    else (if items[0].Text? then [items[0].text] else []) + Strings(items[1..])
  }

  // ── The union, before deduplication ────────────────────────────────────────

  function EntriesFor(patterns: seq<string>, scope: Option<Scope>, source: Source): seq<Entry> {
    seq(|patterns|, i requires 0 <= i < |patterns| => Entry(patterns[i], scope, source))
  }

  lemma EntriesForLast(patterns: seq<string>, scope: Option<Scope>, source: Source, i: nat)
    requires i < |patterns|
    ensures EntriesFor(patterns[..i + 1], scope, source)
         == EntriesFor(patterns[..i], scope, source) + [Entry(patterns[i], scope, source)]
  {
  }

  function RoleEntries(roles: AppRoles, key: string, scope: Option<Scope>, source: Source): seq<Entry> {
    var role := GetRole(roles, key);
    if role.None? then [] else EntriesFor(role.value, scope, source)
  }

  function GrantEntries(grant: GrantRow, roles: AppRoles): seq<Entry> {
    var scope := RowScope(grant.scopeType, grant.scopeValue);
    if grant.roleKey.Some? then RoleEntries(roles, grant.roleKey.value, scope, FromGrant)
    else if grant.permissions.Some? then EntriesFor(InlinePatterns(grant.permissions.value), scope, FromGrant)
    else []
  }

  function AllGrantEntries(grants: seq<GrantRow>, roles: AppRoles): seq<Entry> {
    if grants == [] then []
    else AllGrantEntries(grants[..|grants| - 1], roles) + GrantEntries(grants[|grants| - 1], roles)
  }

  function Union(grants: seq<GrantRow>, isBootstrapAdmin: bool, roles: AppRoles): seq<Entry> {
    AllGrantEntries(grants, roles)
    + if isBootstrapAdmin then RoleEntries(roles, ADMIN_ROLE, None, FromBootstrap) else []
  }

  ghost predicate SomeGrantHas(grants: seq<GrantRow>, roles: AppRoles, e: Entry) {
    exists g :: g in grants && e in GrantEntries(g, roles)
  }

  lemma SomeGrantOfLast(init: seq<GrantRow>, last: GrantRow, roles: AppRoles, e: Entry)
    ensures SomeGrantHas(init + [last], roles, e) <==> SomeGrantHas(init, roles, e) || e in GrantEntries(last, roles)
  {
    if g :| g in init && e in GrantEntries(g, roles) {
      assert g in init + [last];
    }
    assert last in init + [last];
  }

  lemma {:induction false} AllGrantEntriesMembers(grants: seq<GrantRow>, roles: AppRoles, e: Entry)
    ensures e in AllGrantEntries(grants, roles) <==> SomeGrantHas(grants, roles, e)
  {
    if grants != [] {
      var init, last := grants[..|grants| - 1], grants[|grants| - 1];
      AllGrantEntriesMembers(init, roles, e);
      SomeGrantOfLast(init, last, roles, e);
      assert grants == init + [last];
    }
  }

  // ── Deduplication ──────────────────────────────────────────────────────────

  function ScopeKey(scope: Option<Scope>): string {
    if scope.None? then "" else scope.value.dimension + ":" + scope.value.value
  }

  function SourceText(source: Source): string {
    match source
    case FromGrant => "grant"
    case FromBootstrap => "bootstrap"
    case FromGroup(ref) => "group:" + ref
  }

  function Key(e: Entry): string {
    e.action + " " + ScopeKey(e.scope) + " " + SourceText(e.source)
  }

  /** Keep the first entry under each key. */
  function Dedup(entries: seq<Entry>): seq<Entry> {
    DedupBy(entries, Key)
  }

  /** The growing result and the keys seen so far, shared by every `add`. */
  class Accumulator {
    var entries: seq<Entry>
    var seen: set<string>
    ghost var added: seq<Entry>

    ghost predicate Valid() reads this {
      entries == Dedup(added) && seen == set e | e in entries :: Key(e)
    }

    constructor ()
      ensures Valid() && added == []
    {
      entries, seen, added := [], {}, [];
    }

    method Add(action: string, scope: Option<Scope>, source: Source)
      requires Valid()
      modifies this
      ensures Valid() && added == old(added) + [Entry(action, scope, source)]
    {
      var entry := Entry(action, scope, source);
      var key := Key(entry);
      added := added + [entry];
      assert added[..|added| - 1] == old(added);
      if key in seen {
        return;
      }
      seen := seen + {key};
      entries := entries + [entry];
    }

    method AddAll(patterns: seq<string>, scope: Option<Scope>, source: Source)
      requires Valid()
      modifies this
      ensures Valid() && added == old(added) + EntriesFor(patterns, scope, source)
    {
      for i := 0 to |patterns|
        invariant Valid() && added == old(added) + EntriesFor(patterns[..i], scope, source)
      {
        EntriesForLast(patterns, scope, source, i);
        Add(patterns[i], scope, source);
      }
      assert patterns[..|patterns|] == patterns;
    }

    method ExpandRole(roles: AppRoles, roleKey: string, scope: Option<Scope>, source: Source)
      requires Valid()
      modifies this
      ensures Valid() && added == old(added) + RoleEntries(roles, roleKey, scope, source)
    {
      var role := GetRole(roles, roleKey);
      if role.None? {
        return;
      }
      AddAll(role.value, scope, source);
    }

    method AddGrant(grant: GrantRow, roles: AppRoles)
      requires Valid()
      modifies this
      ensures Valid() && added == old(added) + GrantEntries(grant, roles)
      ensures forall e :: e in added[|old(added)|..] <==> RowSays(grant, roles, e)
    {
      forall e {
        GrantEntriesMembers(grant, roles, e);
      }
      var scope := RowScope(grant.scopeType, grant.scopeValue);
      if grant.roleKey.Some? {
        ExpandRole(roles, grant.roleKey.value, scope, FromGrant);
      } else if grant.permissions.Some? {
        AddAll(InlinePatterns(grant.permissions.value), scope, FromGrant);
      }
    }
  }

  method ComputePermissions(grants: seq<GrantRow>, isBootstrapAdmin: bool, roles: AppRoles)
    returns (entries: seq<Entry>)
    ensures entries == Dedup(Union(grants, isBootstrapAdmin, roles))
    ensures forall action, scope :: Permits(entries, action, scope) ==>
              SomethingConfers(grants, isBootstrapAdmin, roles, action, scope)
    ensures (forall g :: g in grants ==> WellNamedRow(g, roles)) ==>
              forall action, scope :: SomethingConfers(grants, isBootstrapAdmin, roles, action, scope) ==>
                Permits(entries, action, scope)
  {
    var result := new Accumulator();
    for i := 0 to |grants|
      invariant fresh(result) && result.Valid()
      invariant result.added == AllGrantEntries(grants[..i], roles)
    {
      result.AddGrant(grants[i], roles);
      AllGrantEntriesExtend(grants, roles, i);
    }
    assert grants[..|grants|] == grants;
    if isBootstrapAdmin {
      result.ExpandRole(roles, ADMIN_ROLE, None, FromBootstrap);
    }
    assert result.added == Union(grants, isBootstrapAdmin, roles);
    forall action, scope {
      ResolvedPermitsIff(grants, isBootstrapAdmin, roles, action, scope);
    }
    return result.entries;
  }

  lemma AllGrantEntriesExtend(grants: seq<GrantRow>, roles: AppRoles, i: nat)
    requires i < |grants|
    ensures AllGrantEntries(grants[..i + 1], roles)
         == AllGrantEntries(grants[..i], roles) + GrantEntries(grants[i], roles)
  {
    assert grants[..i + 1][..i] == grants[..i];
  }

  // ── What deduplication may and may not lose ────────────────────────────────

  /** Every result entry is in the union, and no triple occurs twice. */
  lemma DedupIsTraceable(entries: seq<Entry>)
    ensures forall e :: e in Dedup(entries) ==> e in entries
    ensures Distinct(Dedup(entries))
  {
    DedupInventsNothing(entries, Key);
    DedupKeysAreDistinct(entries, Key);
  }

  /** No two different entries of the union share a key. */
  ghost predicate KeysTellApart(entries: seq<Entry>) {
    forall e, f :: e in entries && f in entries && Key(e) == Key(f) ==> e == f
  }

  /** The result has the same entries as the union exactly when the keys tell the union's entries apart. */
  lemma DedupIsExactIff(entries: seq<Entry>)
    ensures (forall e :: e in entries <==> e in Dedup(entries)) <==> KeysTellApart(entries)
  {
    DedupLosesNothingIff(entries, Key);
  }

  /** Each entry's own request is covered by an entry that no earlier one's key shut out. */
  predicate FirstsCover(entries: seq<Entry>) {
    forall e :: e in entries ==>
      exists i :: 0 <= i < |entries| && Covers(entries[i], e.action, e.scope) && First(entries, Key, i)
  }

  /**
   * No permission is lost exactly when the entries that come first under their keys cover the rest: a
   * collision that hides an entry does harm only if nothing kept covers that entry.
   */
  lemma DedupLosesNoPermissionIff(entries: seq<Entry>)
    ensures Contained(entries, Dedup(entries)) <==> FirstsCover(entries)
  {
    ContainedIffEntriesCovered(entries, Dedup(entries));
    forall e | e in entries
      ensures Permits(Dedup(entries), e.action, e.scope)
         <==> exists i :: 0 <= i < |entries| && First(entries, Key, i) && Covers(entries[i], e.action, e.scope)
    {
      if k :| k in Dedup(entries) && Covers(k, e.action, e.scope) {
        DedupKeepsTheFirsts(entries, Key, k);
      }
      if i :| 0 <= i < |entries| && First(entries, Key, i) && Covers(entries[i], e.action, e.scope) {
        DedupKeepsTheFirsts(entries, Key, entries[i]);
      }
    }
  }

  /** What the catalog conventions promise: no space in an action, no colon in a scope dimension. */
  predicate WellNamed(e: Entry) {
    && ' ' !in e.action
    && (e.scope.Some? ==> ':' !in e.scope.value.dimension)
    && !e.source.FromGroup?
  }

  lemma ScopeKeyIsInjective(s: Option<Scope>, t: Option<Scope>)
    requires s.Some? ==> ':' !in s.value.dimension
    requires t.Some? ==> ':' !in t.value.dimension
    requires ScopeKey(s) == ScopeKey(t)
    ensures s == t
  {
    if s.Some? && t.Some? {
      SplitAtFirst(':', s.value.dimension, s.value.value, t.value.dimension, t.value.value);
    }
  }

  lemma SourceTextIsOneWord(s: Source, t: Source)
    requires !s.FromGroup? && !t.FromGroup?
    ensures ' ' !in SourceText(s)
    ensures SourceText(s) == SourceText(t) ==> s == t
  {
    assert "grant"[0] == 'g' && "bootstrap"[0] == 'b';
  }

  lemma KeyIsInjective(e: Entry, f: Entry)
    requires WellNamed(e) && WellNamed(f) && Key(e) == Key(f)
    ensures e == f
  {
    var scopeE, scopeF := ScopeKey(e.scope), ScopeKey(f.scope);
    var sourceE, sourceF := SourceText(e.source), SourceText(f.source);
    KeyParts(e.action, scopeE, sourceE);
    KeyParts(f.action, scopeF, sourceF);
    SourceTextIsOneWord(e.source, f.source);
    SourceTextIsOneWord(f.source, e.source);
    SplitAtFirst(' ', e.action, scopeE + [' '] + sourceE, f.action, scopeF + [' '] + sourceF);
    SplitAtLast(' ', scopeE, sourceE, scopeF, sourceF);
    ScopeKeyIsInjective(e.scope, f.scope);
  }

  lemma KeyParts(action: string, scope: string, source: string)
    ensures action + " " + scope + " " + source == action + [' '] + (scope + [' '] + source)
  {
  }

  /** Well-named vocabularies lose no permission, whatever the grants. */
  lemma DedupPermitsTheUnion(entries: seq<Entry>, action: string, scope: Option<Scope>)
    requires forall e :: e in entries ==> WellNamed(e)
    ensures Permits(Dedup(entries), action, scope) <==> Permits(entries, action, scope)
  {
    forall e, f | e in entries && f in entries && Key(e) == Key(f) ensures e == f {
      KeyIsInjective(e, f);
    }
    DedupIsExactIff(entries);
  }

  /** Entries that differ in their actions alone never collide, whatever their names. */
  lemma OneScopeLosesNothing(entries: seq<Entry>, scope: Option<Scope>, source: Source)
    requires forall e :: e in entries ==> e.scope == scope && e.source == source
    ensures forall e :: e in entries <==> e in Dedup(entries)
  {
    var rest := " " + ScopeKey(scope) + " " + SourceText(source);
    forall e, f | e in entries && f in entries && Key(e) == Key(f) ensures e == f {
      KeyEndsWith(e, rest);
      KeyEndsWith(f, rest);
      assert Key(e)[..|Key(e)| - |rest|] == e.action && Key(f)[..|Key(f)| - |rest|] == f.action;
    }
    DedupIsExactIff(entries);
  }

  lemma KeyEndsWith(e: Entry, rest: string)
    requires rest == " " + ScopeKey(e.scope) + " " + SourceText(e.source)
    ensures Key(e) == e.action + rest
  {
  }

  /** Deduplication never widens, well named or not. */
  lemma DedupNeverWidens(entries: seq<Entry>)
    ensures Contained(Dedup(entries), entries)
  {
    DedupIsTraceable(entries);
  }

  lemma DedupOfTwins<T, K>(a: T, b: T, key: T -> K)
    requires key(a) == key(b)
    ensures DedupBy([a, b], key) == [a]
  {
    assert [a, b][..1] == [a] && [a][..0] == [];
    assert DedupBy([a], key) == [a];
    assert key([a][0]) == key(b);
  }

  /** A colon in a scope dimension can make one grant swallow another. */
  lemma CollidingScopesLoseAPermission()
    ensures var a := Entry("read", Some(Scope("team", "x:y")), FromGrant);
            var b := Entry("read", Some(Scope("team:x", "y")), FromGrant);
            && Permits([a, b], "read", Some(Scope("team:x", "y")))
            && !Permits(Dedup([a, b]), "read", Some(Scope("team:x", "y")))
  {
    var a := Entry("read", Some(Scope("team", "x:y")), FromGrant);
    var b := Entry("read", Some(Scope("team:x", "y")), FromGrant);
    assert ScopeKey(a.scope) == "team:x:y" == ScopeKey(b.scope);
    assert Key(a) == Key(b);
    DedupOfTwins(a, b, Key);
    assert Covers(b, "read", b.scope);
    assert "team" != "team:x" by { assert |"team"| != |"team:x"|; }
  }

  /** Well-named grants may be read in any order. */
  lemma GrantOrderIsIrrelevant(
      grants: seq<GrantRow>, shuffled: seq<GrantRow>, isBootstrapAdmin: bool, roles: AppRoles,
      action: string, scope: Option<Scope>)
    requires forall g :: g in grants <==> g in shuffled
    requires forall e :: e in Union(grants, isBootstrapAdmin, roles) ==> WellNamed(e)
    ensures Permits(Dedup(Union(grants, isBootstrapAdmin, roles)), action, scope)
       <==> Permits(Dedup(Union(shuffled, isBootstrapAdmin, roles)), action, scope)
  {
    forall e ensures e in Union(grants, isBootstrapAdmin, roles) <==> e in Union(shuffled, isBootstrapAdmin, roles) {
      AllGrantEntriesMembers(grants, roles, e);
      AllGrantEntriesMembers(shuffled, roles, e);
    }
    DedupPermitsTheUnion(Union(grants, isBootstrapAdmin, roles), action, scope);
    DedupPermitsTheUnion(Union(shuffled, isBootstrapAdmin, roles), action, scope);
  }

  // ── What resolution means, from the stored fields ──────────────────────────

  /** The patterns a row stands for: `admin` is `*` for every app, another role is the app's own, else inline. */
  ghost predicate RowNames(row: GrantRow, roles: AppRoles, pattern: string) {
    match row.roleKey
    case Some(key) => if key == "admin" then pattern == "*" else key in roles && pattern in roles[key]
    case None => row.permissions.Some? && row.permissions.value.Array? && Json.Text(pattern) in row.permissions.value.items
  }

  /** A row reaches its own coordinate; one without both columns reaches everything. */
  ghost predicate RowReaches(row: GrantRow, scope: Option<Scope>) {
    || row.scopeType.None? || row.scopeValue.None?
    || (scope.Some? && scope.value.dimension == row.scopeType.value && scope.value.value == row.scopeValue.value)
  }

  ghost predicate RowConfers(row: GrantRow, roles: AppRoles, action: string, scope: Option<Scope>) {
    RowReaches(row, scope) && exists pattern :: RowNames(row, roles, pattern) && MatchAction(pattern, action)
  }

  /** The names a row brings have no space, and no colon in the scope type. */
  ghost predicate WellNamedRow(row: GrantRow, roles: AppRoles) {
    && (forall pattern :: RowNames(row, roles, pattern) ==> ' ' !in pattern)
    && (row.scopeType.Some? && row.scopeValue.Some? ==> ':' !in row.scopeType.value)
  }

  lemma {:induction false} StringsMembers(items: seq<Json.Value>, text: string)
    ensures text in Strings(items) <==> Json.Text(text) in items
  {
    if items != [] {
      StringsMembers(items[1..], text);
      assert items == [items[0]] + items[1..];
    }
  }

  lemma EntriesForMembers(patterns: seq<string>, scope: Option<Scope>, source: Source, e: Entry)
    ensures e in EntriesFor(patterns, scope, source) <==> e.action in patterns && e.scope == scope && e.source == source
  {
    if e.action in patterns && e.scope == scope && e.source == source {
      var i :| 0 <= i < |patterns| && patterns[i] == e.action;
      assert EntriesFor(patterns, scope, source)[i] == e;
    }
  }

  /** The entry is one the row stands for: one of its patterns, at its own coordinate or nowhere in particular. */
  ghost predicate RowSays(row: GrantRow, roles: AppRoles, e: Entry) {
    && RowNames(row, roles, e.action) && e.source == FromGrant
    && match e.scope
       case Some(s) => row.scopeType == Some(s.dimension) && row.scopeValue == Some(s.value)
       case None => row.scopeType.None? || row.scopeValue.None?
  }

  lemma GrantEntriesMembers(row: GrantRow, roles: AppRoles, e: Entry)
    ensures e in GrantEntries(row, roles) <==> RowSays(row, roles, e)
  {
    var scope := RowScope(row.scopeType, row.scopeValue);
    if row.roleKey.Some? {
      var role := GetRole(roles, row.roleKey.value);
      if role.Some? {
        EntriesForMembers(role.value, scope, FromGrant, e);
      }
    } else if row.permissions.Some? {
      var patterns := InlinePatterns(row.permissions.value);
      EntriesForMembers(patterns, scope, FromGrant, e);
      if row.permissions.value.Array? {
        StringsMembers(row.permissions.value.items, e.action);
      }
    }
  }

  /** One grant permits exactly what its row confers. */
  lemma GrantPermitsIff(row: GrantRow, roles: AppRoles, action: string, scope: Option<Scope>)
    ensures Permits(GrantEntries(row, roles), action, scope) <==> RowConfers(row, roles, action, scope)
  {
    var held := RowScope(row.scopeType, row.scopeValue);
    if Permits(GrantEntries(row, roles), action, scope) {
      var e :| e in GrantEntries(row, roles) && Covers(e, action, scope);
      GrantEntriesMembers(row, roles, e);
    }
    if RowConfers(row, roles, action, scope) {
      var pattern :| RowNames(row, roles, pattern) && MatchAction(pattern, action);
      var e := Entry(pattern, held, FromGrant);
      GrantEntriesMembers(row, roles, e);
      assert Covers(e, action, scope);
    }
  }

  /** Bootstrap permits everything. */
  lemma BootstrapPermits(roles: AppRoles, e: Entry)
    ensures e in RoleEntries(roles, ADMIN_ROLE, None, FromBootstrap) <==> e == Entry("*", None, FromBootstrap)
  {
    EntriesForMembers(["*"], None, FromBootstrap, e);
  }

  ghost predicate SomethingConfers(
      grants: seq<GrantRow>, isBootstrapAdmin: bool, roles: AppRoles, action: string, scope: Option<Scope>)
  {
    isBootstrapAdmin || exists g :: g in grants && RowConfers(g, roles, action, scope)
  }

  /** The union permits what bootstrap or some row confers, and nothing else. */
  lemma UnionPermitsIff(
      grants: seq<GrantRow>, isBootstrapAdmin: bool, roles: AppRoles, action: string, scope: Option<Scope>)
    ensures Permits(Union(grants, isBootstrapAdmin, roles), action, scope)
       <==> SomethingConfers(grants, isBootstrapAdmin, roles, action, scope)
  {
    var union := Union(grants, isBootstrapAdmin, roles);
    if e :| e in union && Covers(e, action, scope) {
      if e in AllGrantEntries(grants, roles) {
        AllGrantEntriesMembers(grants, roles, e);
        var g :| g in grants && e in GrantEntries(g, roles);
        GrantPermitsIff(g, roles, action, scope);
      }
    }
    if isBootstrapAdmin {
      var star := Entry("*", None, FromBootstrap);
      BootstrapPermits(roles, star);
      assert star in union && Covers(star, action, scope);
    }
    if g :| g in grants && RowConfers(g, roles, action, scope) {
      GrantPermitsIff(g, roles, action, scope);
      var e :| e in GrantEntries(g, roles) && Covers(e, action, scope);
      AllGrantEntriesMembers(grants, roles, e);
      assert e in union;
    }
  }

  lemma RowsAreWellNamed(grants: seq<GrantRow>, isBootstrapAdmin: bool, roles: AppRoles, e: Entry)
    requires forall g :: g in grants ==> WellNamedRow(g, roles)
    requires e in Union(grants, isBootstrapAdmin, roles)
    ensures WellNamed(e)
  {
    if e in AllGrantEntries(grants, roles) {
      AllGrantEntriesMembers(grants, roles, e);
      var g :| g in grants && e in GrantEntries(g, roles);
      GrantEntriesMembers(g, roles, e);
      assert WellNamedRow(g, roles);
    } else {
      BootstrapPermits(roles, e);
    }
  }

  /** Resolution permits nothing that bootstrap or some row does not confer, and, well named, all of it. */
  lemma ResolvedPermitsIff(
      grants: seq<GrantRow>, isBootstrapAdmin: bool, roles: AppRoles, action: string, scope: Option<Scope>)
    ensures var permitted := Permits(Dedup(Union(grants, isBootstrapAdmin, roles)), action, scope);
            var conferred := SomethingConfers(grants, isBootstrapAdmin, roles, action, scope);
            && (permitted ==> conferred)
            && ((forall g :: g in grants ==> WellNamedRow(g, roles)) ==> (conferred ==> permitted))
  {
    var union := Union(grants, isBootstrapAdmin, roles);
    UnionPermitsIff(grants, isBootstrapAdmin, roles, action, scope);
    DedupNeverWidens(union);
    if forall g :: g in grants ==> WellNamedRow(g, roles) {
      forall e | e in union ensures WellNamed(e) {
        RowsAreWellNamed(grants, isBootstrapAdmin, roles, e);
      }
      DedupPermitsTheUnion(union, action, scope);
    }
  }
}
