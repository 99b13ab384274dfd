/**
 * The permission algebra both the Worker and the SDK decide with: wildcard action patterns crossed
 * with flat scope coordinates.
 */
module Permissions {
  import opened Common

  /** One app-owned coordinate: a dimension and an opaque value. */
  datatype Scope = Scope(dimension: string, value: string)

  datatype Source = FromGrant | FromBootstrap | FromGroup(groupRef: string)

  /** `scope == None` is a global entry. */
  datatype Entry = Entry(action: string, scope: Option<Scope>, source: Source)

  // ── Actions ────────────────────────────────────────────────────────────────

  predicate IsWildcard(pattern: string) {
    EndsWith(pattern, ".*")
  }

  predicate MatchAction(pattern: string, action: string) {
    if pattern == "*" then true
    else if IsWildcard(pattern) then pattern[..|pattern| - 1] <= action
    else pattern == action
  }

  /** `action` lies under `ns`, at any depth. The dot is part of the boundary. */
  ghost predicate Under(ns: string, action: string) {
    exists rest: string :: action == ns + "." + rest
  }

  /** What a pattern is documented to mean, without saying how it is tested. */
  ghost predicate Denotes(pattern: string, action: string) {
    || pattern == "*"
    || pattern == action
    || exists ns: string :: pattern == ns + ".*" && Under(ns, action)
  }

  lemma MatchesWhatItDenotes(pattern: string, action: string)
    ensures MatchAction(pattern, action) <==> Denotes(pattern, action)
  {
    if IsWildcard(pattern) && pattern != "*" {
      var ns := pattern[..|pattern| - 2];
      assert pattern == ns + ".*";
      assert pattern[..|pattern| - 1] == ns + ".";
      if MatchAction(pattern, action) {
        assert action == ns + "." + action[|ns| + 1..];
        assert Under(ns, action);
      }
      if ns': string :| pattern == ns' + ".*" && Under(ns', action) {
        assert ns' == ns by { assert (ns' + ".*")[..|ns'|] == ns'; }
        var rest: string :| action == ns + "." + rest;
        assert action[..|ns| + 1] == ns + ".";
      }
    }
  }

  lemma MatchReflexive(pattern: string)
    ensures MatchAction(pattern, pattern)
  {
  }

  lemma OnlyStarMatchesStar(p: string)
    ensures MatchAction(p, "*") <==> p == "*"
  {
    if IsWildcard(p) {
      assert p[..|p| - 1][|p| - 2] == '.';
    }
  }

  lemma MatchTransitive(p: string, q: string, r: string)
    requires MatchAction(p, q) && MatchAction(q, r)
    ensures MatchAction(p, r)
  {
    if q == "*" {
      OnlyStarMatchesStar(p);
    } else if p != "*" && IsWildcard(p) && IsWildcard(q) {
      PrefixOfStem(p, q);
      assert r[..|p| - 1] == r[..|q| - 1][..|p| - 1];
    }
  }

  /** A wildcard that matches another wildcard's text is a prefix of that wildcard's stem. */
  lemma PrefixOfStem(p: string, q: string)
    requires IsWildcard(p) && IsWildcard(q) && p[..|p| - 1] <= q
    ensures p[..|p| - 1] <= q[..|q| - 1]
  {
    assert p[..|p| - 1][|p| - 2] == '.';
    assert q[..|q| - 1] == q[..|q| - 1][..|q| - 1];
  }

  lemma MatchAntisymmetric(p: string, q: string)
    requires MatchAction(p, q) && MatchAction(q, p)
    ensures p == q
  {
    if p == "*" {
      OnlyStarMatchesStar(q);
    } else if q == "*" {
      OnlyStarMatchesStar(p);
    } else if IsWildcard(p) && IsWildcard(q) {
      PrefixOfStem(p, q);
      PrefixOfStem(q, p);
      assert |p| == |q|;
      assert p[..|p| - 1] == q[..|q| - 1];
      assert p == p[..|p| - 1] + "*" && q == q[..|q| - 1] + "*";
    }
  }

  /** Matching a pattern against a pattern's text decides inclusion of the actions they stand for. */
  lemma MatchIsInclusion(p: string, q: string)
    ensures MatchAction(p, q) <==> forall a: string :: MatchAction(q, a) ==> MatchAction(p, a)
  {
    if MatchAction(p, q) {
      forall a: string | MatchAction(q, a) ensures MatchAction(p, a) {
        MatchTransitive(p, q, a);
      }
    }
    MatchReflexive(q);
  }

  /** Patterns are laminar: two that share an action are nested. */
  lemma MatchLaminar(p: string, q: string, a: string)
    requires MatchAction(p, a) && MatchAction(q, a)
    ensures MatchAction(p, q) || MatchAction(q, p)
  {
    if p != "*" && q != "*" && IsWildcard(p) && IsWildcard(q) {
      if |p| <= |q| {
        assert p[..|p| - 1] <= q;
      } else {
        assert q[..|q| - 1] <= p;
      }
    }
  }

  // ── Entries ────────────────────────────────────────────────────────────────

  predicate ScopeCovers(held: Option<Scope>, asked: Option<Scope>) {
    held == None || held == asked
  }

  predicate Covers(entry: Entry, action: string, scope: Option<Scope>) {
    ScopeCovers(entry.scope, scope) && MatchAction(entry.action, action)
  }

  /** `can(action, scope?)`: a missing scope asks for a global permission. */
  predicate Permits(entries: seq<Entry>, action: string, scope: Option<Scope>) {
    exists e :: e in entries && Covers(e, action, scope)
  }

  /** Some entry names the action and is global or on the very scope asked for. */
  lemma PermitsWhatIsDenoted(entries: seq<Entry>, action: string, scope: Option<Scope>)
    ensures Permits(entries, action, scope)
       <==> exists e :: e in entries && Denotes(e.action, action) && (e.scope.None? || e.scope == scope)
  {
    forall e | e in entries ensures MatchAction(e.action, action) <==> Denotes(e.action, action) {
      MatchesWhatItDenotes(e.action, action);
    }
    if e :| e in entries && Denotes(e.action, action) && (e.scope.None? || e.scope == scope) {
      assert Covers(e, action, scope);
    }
  }

  method DecidePermits(entries: seq<Entry>, action: string, scope: Option<Scope>) returns (granted: bool)
    ensures granted == Permits(entries, action, scope)
    ensures granted <==> exists e :: e in entries && Denotes(e.action, action) && (e.scope.None? || e.scope == scope)
  {
    PermitsWhatIsDenoted(entries, action, scope);
    for i := 0 to |entries|
      invariant forall j :: 0 <= j < i ==> !Covers(entries[j], action, scope)
    {
      var entry := entries[i];
      var scopeOk := entry.scope == None || (scope != None && entry.scope.value == scope.value);
      if scopeOk && MatchAction(entry.action, action) {
        assert Covers(entry, action, scope);
        return true;
      }
    }
    return false;
  }

  /** An entry whose own text is covered adds nothing: everything it permits was permitted already. */
  lemma CoveredEntryAddsNothing(held: seq<Entry>, e: Entry, action: string, scope: Option<Scope>)
    requires Permits(held, e.action, e.scope) && Covers(e, action, scope)
    ensures Permits(held, action, scope)
  {
    var h :| h in held && Covers(h, e.action, e.scope);
    MatchTransitive(h.action, e.action, action);
    assert Covers(h, action, scope);
  }

  /** `a` permits nothing beyond `b`. */
  ghost predicate Contained(a: seq<Entry>, b: seq<Entry>) {
    forall action, scope :: Permits(a, action, scope) ==> Permits(b, action, scope)
  }

  /** Containment, which ranges over all requests, is decided by asking for `a`'s own entries. */
  lemma ContainedIffEntriesCovered(a: seq<Entry>, b: seq<Entry>)
    ensures Contained(a, b) <==> forall e :: e in a ==> Permits(b, e.action, e.scope)
  {
    if forall e :: e in a ==> Permits(b, e.action, e.scope) {
      forall action, scope | Permits(a, action, scope) ensures Permits(b, action, scope) {
        var e :| e in a && Covers(e, action, scope);
        CoveredEntryAddsNothing(b, e, action, scope);
      }
    }
    if Contained(a, b) {
      forall e | e in a ensures Permits(b, e.action, e.scope) {
        MatchReflexive(e.action);
        assert Covers(e, e.action, e.scope);
      }
    }
  }

  // ── scopedTo ───────────────────────────────────────────────────────────────

  /**
   * The values of one dimension on which an action is held. `None` means held everywhere; otherwise
   * the list names, once each, exactly the values for which `can` answers yes.
   */
  method ScopedValues(entries: seq<Entry>, action: string, dimension: string) returns (held: Option<seq<string>>)
    ensures held.None? <==> Permits(entries, action, None)
    ensures held.Some? ==> Distinct(held.value)
    ensures held.Some? ==> forall v ::
              v in held.value <==> Permits(entries, action, Some(Scope(dimension, v)))
  {
    var values: seq<string> := [];
    var seen: set<string> := {};
    for i := 0 to |entries|
      invariant forall j :: 0 <= j < i ==> !Covers(entries[j], action, None)
      invariant Distinct(values) && seen == set v | v in values
      invariant forall v :: v in values ==> Permits(entries, action, Some(Scope(dimension, v)))
      invariant forall j, v :: 0 <= j < i && Covers(entries[j], action, Some(Scope(dimension, v))) ==> v in values
    {
      var entry := entries[i];
      if !MatchAction(entry.action, action) {
        continue;
      }
      if entry.scope == None {
        assert Covers(entry, action, None);
        return None;
      }
      if entry.scope.value.dimension != dimension {
        continue;
      }
      if entry.scope.value.value !in seen {
        assert Covers(entry, action, Some(Scope(dimension, entry.scope.value.value)));
        seen := seen + {entry.scope.value.value};
        values := values + [entry.scope.value.value];
      }
    }
    return Some(values);
  }

  // ── Catalogs ───────────────────────────────────────────────────────────────

  predicate IsActionAllowed(pattern: string, catalog: seq<string>) {
    if pattern == "*" then true
    else if pattern in catalog then true
    else if IsWildcard(pattern) then exists c :: c in catalog && pattern[..|pattern| - 1] <= c
    else false
  }

  /** Validation against a catalog asks for at least one catalog action the pattern matches. */
  lemma AllowedIffMatchesCatalog(pattern: string, catalog: seq<string>)
    ensures IsActionAllowed(pattern, catalog) <==> pattern == "*" || exists c :: c in catalog && MatchAction(pattern, c)
  {
    if pattern in catalog {
      MatchReflexive(pattern);
    }
  }
}
