/**
 * Delegation: an issuer may hand out only what it holds, and inline grants on a principal-bound
 * credential restrict what the principal holds at the time of use.
 */
module Delegation {
  import opened Common
  import opened Permissions

  datatype KeyGrant = KeyGrant(action: string, scope: Option<Scope>)

  function GrantToEntry(grant: KeyGrant): Entry {
    Entry(grant.action, grant.scope, FromGrant)
  }

  function AsEntries(grants: seq<KeyGrant>): seq<Entry> {
    seq(|grants|, i requires 0 <= i < |grants| => GrantToEntry(grants[i]))
  }

  predicate Covered(issuer: seq<Entry>, grant: KeyGrant) {
    Permits(issuer, grant.action, grant.scope)
  }

  predicate AllCovered(issuer: seq<Entry>, grants: seq<KeyGrant>) {
    forall g :: g in grants ==> Covered(issuer, g)
  }

  method FindUncoveredGrant(issuer: seq<Entry>, grants: seq<KeyGrant>) returns (first: Option<KeyGrant>)
    ensures first.None? <==> AllCovered(issuer, grants)
    ensures first.Some? ==> exists i ::
              0 <= i < |grants| && grants[i] == first.value && !Covered(issuer, grants[i]) && AllCovered(issuer, grants[..i])
  {
    for i := 0 to |grants|
      invariant AllCovered(issuer, grants[..i])
    {
      var granted := DecidePermits(issuer, grants[i].action, grants[i].scope);
      if !granted {
        assert !Covered(issuer, grants[i]);
        return Some(grants[i]);
      }
    }
    assert grants[..|grants|] == grants;
    return None;
  }

  /**
   * The check asks one question per requested grant, wildcards included, yet answers for every
   * action and scope the grants could ever be used for.
   */
  lemma DelegationIsExact(issuer: seq<Entry>, grants: seq<KeyGrant>)
    ensures AllCovered(issuer, grants) <==> Contained(AsEntries(grants), issuer)
  {
    var entries := AsEntries(grants);
    ContainedIffEntriesCovered(entries, issuer);
    if AllCovered(issuer, grants) {
      forall e | e in entries ensures Permits(issuer, e.action, e.scope) {
        var i :| 0 <= i < |entries| && entries[i] == e;
        assert Covered(issuer, grants[i]);
      }
    }
    if Contained(entries, issuer) {
      forall g | g in grants ensures Covered(issuer, g) {
        var i :| 0 <= i < |grants| && grants[i] == g;
        assert entries[i] in entries;
      }
    }
  }

  // ── Downscope ──────────────────────────────────────────────────────────────

  function KeepHeld(inlineGrants: seq<Entry>, resolved: seq<Entry>): seq<Entry> {
    if inlineGrants == [] then []
    else
      var head := inlineGrants[0];
      (if Permits(resolved, head.action, head.scope) then [head] else []) + KeepHeld(inlineGrants[1..], resolved)
  }

  /** No inline grants: the principal's full set. Otherwise those inline grants the principal holds. */
  function Effective(resolved: seq<Entry>, inlineGrants: seq<Entry>): seq<Entry> {
    if |inlineGrants| == 0 then resolved else KeepHeld(inlineGrants, resolved)
  }

  lemma {:induction false} KeepHeldMembers(inlineGrants: seq<Entry>, resolved: seq<Entry>, e: Entry)
    ensures e in KeepHeld(inlineGrants, resolved) <==> e in inlineGrants && Permits(resolved, e.action, e.scope)
  {
    if inlineGrants != [] {
      KeepHeldMembers(inlineGrants[1..], resolved, e);
      assert inlineGrants == [inlineGrants[0]] + inlineGrants[1..];
    }
  }

  lemma EffectiveWithinPrincipal(resolved: seq<Entry>, inlineGrants: seq<Entry>)
    ensures Contained(Effective(resolved, inlineGrants), resolved)
  {
    if inlineGrants != [] {
      forall e | e in KeepHeld(inlineGrants, resolved) ensures Permits(resolved, e.action, e.scope) {
        KeepHeldMembers(inlineGrants, resolved, e);
      }
      ContainedIffEntriesCovered(KeepHeld(inlineGrants, resolved), resolved);
    }
  }

  lemma EffectiveWithinInline(resolved: seq<Entry>, inlineGrants: seq<Entry>)
    requires inlineGrants != []
    ensures Contained(Effective(resolved, inlineGrants), inlineGrants)
  {
    forall action, scope | Permits(KeepHeld(inlineGrants, resolved), action, scope)
      ensures Permits(inlineGrants, action, scope)
    {
      var e :| e in KeepHeld(inlineGrants, resolved) && Covers(e, action, scope);
      KeepHeldMembers(inlineGrants, resolved, e);
    }
  }

  /** Giving the principal more never takes anything from its keys. */
  lemma EffectiveIsMonotone(resolved: seq<Entry>, wider: seq<Entry>, inlineGrants: seq<Entry>)
    requires Contained(resolved, wider)
    ensures Contained(Effective(resolved, inlineGrants), Effective(wider, inlineGrants))
  {
    if inlineGrants != [] {
      forall action, scope | Permits(KeepHeld(inlineGrants, resolved), action, scope)
        ensures Permits(KeepHeld(inlineGrants, wider), action, scope)
      {
        var e :| e in KeepHeld(inlineGrants, resolved) && Covers(e, action, scope);
        KeepHeldMembers(inlineGrants, resolved, e);
        KeepHeldMembers(inlineGrants, wider, e);
      }
    }
  }

  /** The key can do exactly what both its principal and its inline grants allow. */
  ghost predicate IsIntersection(resolved: seq<Entry>, inlineGrants: seq<Entry>) {
    forall action, scope ::
      Permits(Effective(resolved, inlineGrants), action, scope)
      <==> Permits(resolved, action, scope) && Permits(inlineGrants, action, scope)
  }

  predicate Overlap(e: Entry, r: Entry) {
    && (MatchAction(e.action, r.action) || MatchAction(r.action, e.action))
    && (e.scope == None || r.scope == None || e.scope == r.scope)
  }

  /** The larger of what two overlapping entries have in common: the narrower action on the narrower scope. */
  function Meet(e: Entry, r: Entry): KeyGrant {
    KeyGrant(if MatchAction(e.action, r.action) then r.action else e.action,
             if e.scope == None then r.scope else e.scope)
  }

  lemma MeetIsCommonPart(e: Entry, r: Entry, action: string, scope: Option<Scope>)
    ensures Covers(e, action, scope) && Covers(r, action, scope)
       <==> Overlap(e, r) && Covers(GrantToEntry(Meet(e, r)), action, scope)
  {
    if Covers(e, action, scope) && Covers(r, action, scope) {
      MatchLaminar(e.action, r.action, action);
    }
    if Overlap(e, r) && Covers(GrantToEntry(Meet(e, r)), action, scope) {
      if MatchAction(e.action, r.action) {
        MatchTransitive(e.action, r.action, action);
      } else {
        MatchTransitive(r.action, e.action, action);
      }
    }
  }

  /**
   * An inline grant the principal does not wholly hold is dropped. Its overlap with what the principal
   * does hold is made good by other inline grants that are held.
   */
  predicate DroppedGrantsAreMadeGood(resolved: seq<Entry>, inlineGrants: seq<Entry>) {
    forall e, r :: e in inlineGrants && r in resolved && Overlap(e, r) && !Permits(resolved, e.action, e.scope)
      ==> exists h :: h in inlineGrants && Permits(resolved, h.action, h.scope)
                      && Covers(h, Meet(e, r).action, Meet(e, r).scope)
  }

  lemma EffectivePermits(resolved: seq<Entry>, inlineGrants: seq<Entry>, action: string, scope: Option<Scope>)
    requires inlineGrants != []
    ensures Permits(Effective(resolved, inlineGrants), action, scope)
       <==> exists h :: h in inlineGrants && Permits(resolved, h.action, h.scope) && Covers(h, action, scope)
  {
    if h :| h in inlineGrants && Permits(resolved, h.action, h.scope) && Covers(h, action, scope) {
      KeepHeldMembers(inlineGrants, resolved, h);
    }
    if h :| h in KeepHeld(inlineGrants, resolved) && Covers(h, action, scope) {
      KeepHeldMembers(inlineGrants, resolved, h);
    }
  }

  /** A check over the finitely many pairs of given entries decides whether the filter is the true intersection. */
  lemma DownscopeIsIntersectionIff(resolved: seq<Entry>, inlineGrants: seq<Entry>)
    requires inlineGrants != []
    ensures IsIntersection(resolved, inlineGrants) <==> DroppedGrantsAreMadeGood(resolved, inlineGrants)
  {
    var effective := Effective(resolved, inlineGrants);
    EffectiveWithinPrincipal(resolved, inlineGrants);
    EffectiveWithinInline(resolved, inlineGrants);
    if IsIntersection(resolved, inlineGrants) {
      forall e, r | e in inlineGrants && r in resolved && Overlap(e, r)
        ensures exists h :: h in inlineGrants && Permits(resolved, h.action, h.scope)
                            && Covers(h, Meet(e, r).action, Meet(e, r).scope)
      {
        var m := Meet(e, r);
        MatchReflexive(m.action);
        MeetIsCommonPart(e, r, m.action, m.scope);
        assert Permits(inlineGrants, m.action, m.scope) && Permits(resolved, m.action, m.scope);
        EffectivePermits(resolved, inlineGrants, m.action, m.scope);
      }
    }
    if DroppedGrantsAreMadeGood(resolved, inlineGrants) {
      forall action, scope | Permits(resolved, action, scope) && Permits(inlineGrants, action, scope)
        ensures Permits(effective, action, scope)
      {
        var e :| e in inlineGrants && Covers(e, action, scope);
        var r :| r in resolved && Covers(r, action, scope);
        MeetIsCommonPart(e, r, action, scope);
        var m := Meet(e, r);
        if Permits(resolved, e.action, e.scope) {
          EffectivePermits(resolved, inlineGrants, action, scope);
        } else {
          EffectivePermits(resolved, inlineGrants, m.action, m.scope);
          CoveredEntryAddsNothing(effective, GrantToEntry(m), action, scope);
        }
      }
    }
  }

  predicate Concrete(e: Entry) {
    e.action != "*" && !IsWildcard(e.action) && e.scope.Some?
  }

  lemma ConcreteDownscopeIsIntersection(resolved: seq<Entry>, inlineGrants: seq<Entry>)
    requires inlineGrants != [] && forall e :: e in inlineGrants ==> Concrete(e)
    ensures IsIntersection(resolved, inlineGrants)
  {
    forall e, r | e in inlineGrants && r in resolved && Overlap(e, r) ensures Permits(resolved, e.action, e.scope) {
      assert Covers(r, e.action, e.scope);
    }
    DownscopeIsIntersectionIff(resolved, inlineGrants);
  }

  /** A wildcard inline grant that is only partly held is dropped whole. */
  lemma PartlyHeldWildcardIsDropped()
    ensures var held := Entry("project.read", None, FromGrant);
            var asked := Entry("project.*", None, FromGrant);
            && Permits([held], "project.read", None) && Permits([asked], "project.read", None)
            && !Permits(Effective([held], [asked]), "project.read", None)
  {
    var held := Entry("project.read", None, FromGrant);
    var asked := Entry("project.*", None, FromGrant);
    ProjectPatterns();
    assert Covers(held, "project.read", None) && Covers(asked, "project.read", None);
    forall e | e in KeepHeld([asked], [held]) ensures false {
      KeepHeldMembers([asked], [held], e);
    }
  }

  lemma ProjectPatterns()
    ensures MatchAction("project.*", "project.read") && !MatchAction("project.read", "project.*")
  {
    assert "project.*"[7..] == ".*" && "project.*"[..8] == "project.";
    assert "project.read"[10..] == "ad";
  }
}
