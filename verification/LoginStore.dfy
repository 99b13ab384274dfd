/**
 * `resolveUserPrincipal` as one uninterrupted call sequence over the store, shown to follow the
 * interleaving system's own steps from its first read to its outcome.
 */
module LoginStore {
  import opened Common
  import opened Login
  import opened LoginOutcomes

  class UserStore {
    var principals: Table

    ghost predicate Valid() reads this {
      UniqueIndexes(principals)
    }

    constructor ()
      ensures Valid() && principals == map[]
    {
      principals := map[];
    }

    method GetUserByExternalId(sub: string) returns (found: Option<Id>)
      requires Valid()
      ensures found == FindBySub(principals, sub)
    {
      if id :| id in principals && HasSub(principals[id], sub) {
        OneRowPerSub(principals, id, FindBySub(principals, sub).value, sub);
        return Some(id);
      }
      return None;
    }

    method GetUserByEmail(email: string) returns (found: Option<Id>)
      requires Valid()
      ensures found == FindByEmail(principals, email)
    {
      if id :| id in principals && HasEmail(principals[id], email) {
        assert id == FindByEmail(principals, email).value;
        return Some(id);
      }
      return None;
    }

    method RefreshLabel(id: Id, email: string) returns (threw: bool)
      requires Valid()
      modifies this
      ensures Valid()
      ensures var w := RefreshUserLabel(old(principals), id, email);
              if threw then w.Threw? && principals == old(principals) else w.Committed? && principals == w.table
    {
      if id in principals && principals[id].isUser && EmailTakenByAnother(principals, id, email) {
        return true;
      }
      if id in principals {
        RefreshKeepsIndexes(principals, id, email);
        principals := principals[id := principals[id].(email := Some(email), displayName := email)];
      }
      return false;
    }

    /** Binds the sub only while the row is still unclaimed. */
    method ClaimInvited(id: Id, sub: string, email: string) returns (threw: bool, claimed: Option<Row>)
      requires Valid()
      modifies this
      ensures Valid()
      ensures var w := ClaimInvitedUser(old(principals), id, sub, email);
              if threw then w.Threw? && principals == old(principals)
              else w.Committed? && principals == w.table && claimed == w.row
    {
      if id !in principals || !principals[id].isUser || principals[id].externalId.Some? {
        return false, None;
      }
      if SubTakenByAnother(principals, id, sub) {
        return true, None;
      }
      ClaimKeepsIndexes(principals, id, sub, email);
      principals := principals[id := principals[id].(externalId := Some(sub), displayName := email)];
      return false, Some(principals[id]);
    }

    method Create(newId: Id, sub: string, email: string) returns (threw: bool, created: Option<Row>)
      requires Valid()
      modifies this
      ensures Valid()
      ensures var w := CreateUser(old(principals), newId, sub, email);
              if threw then w.Threw? && principals == old(principals)
              else w.Committed? && principals == w.table && created == w.row
    {
      if newId in principals || SubTakenByAnother(principals, newId, sub) || EmailTakenByAnother(principals, newId, email) {
        return true, None;
      }
      CreateKeepsIndexes(principals, newId, sub, email);
      principals := principals[newId := Row(true, Some(sub), Some(email), email, false)];
      return false, Some(principals[newId]);
    }
  }

  /** Let one login make all its calls with nobody in between. */
  ghost function Finish(t: Table, s: Session, newId: Id): (Table, Session)
    decreases CallsLeft(s.pc)
  {
    if s.pc.Done? then (t, s)
    else
      CallShortens(t, s, newId, NoFault);
      Finish(TableAfter(t, s, newId, NoFault), SessionAfter(t, s, newId, NoFault), newId)
  }

  lemma FinishAfterCall(t: Table, s: Session, newId: Id)
    requires !s.pc.Done?
    ensures Finish(t, s, newId) == Finish(TableAfter(t, s, newId, NoFault), SessionAfter(t, s, newId, NoFault), newId)
  {
  }

  ghost predicate EmailHeld(t: Table, email: string) {
    exists i :: i in t && HasEmail(t[i], email)
  }

  /** The sub's own row: let in and relabelled unless disabled, the label kept if another user has the email. */
  ghost predicate IsKnownLogin(t: Table, u: Table, id: Id, email: string, outcome: Outcome)
    requires id in t
  {
    if t[id].disabled then outcome == Disabled && u == t
    else
      && outcome == Ok(id)
      && u == if exists i :: i in t && i != id && HasEmail(t[i], email) then t
              else t[id := t[id].(email := Some(email), displayName := email)]
  }

  /** Somebody's row under the email: bound to the sub if it is an enabled invite, left alone if not. */
  ghost predicate IsInvitedLogin(t: Table, u: Table, id: Id, sub: string, email: string, outcome: Outcome)
    requires id in t
  {
    if t[id].externalId.Some? then outcome == UnknownPrincipal && u == t
    else if t[id].disabled then outcome == Disabled && u == t
    else outcome == Ok(id) && u == t[id := t[id].(externalId := Some(sub), displayName := email)]
  }

  /** Nobody's: a new enabled user, unless the drawn id is taken. */
  ghost predicate IsFirstLogin(t: Table, u: Table, newId: Id, sub: string, email: string, outcome: Outcome) {
    if newId in t then outcome == UnknownPrincipal && u == t
    else outcome == Ok(newId) && u == t[newId := Row(true, Some(sub), Some(email), email, false)]
  }

  /**
   * The returned principal shows its row as the table now has it, whether the label was refreshed or the
   * refresh met another user's email.
   */
  method ResolveUserPrincipal(db: UserStore, sub: string, email: string, newId: Id)
    returns (outcome: Outcome, principal: Option<Row>)
    requires db.Valid()
    modifies db
    ensures db.Valid()
    ensures var (t, s) := Finish(old(db.principals), Session(sub, email, BySub, 0, false), newId);
            db.principals == t && s.pc == Done(outcome)
    ensures principal.Some? <==> outcome.Ok?
    ensures outcome.Ok? ==> outcome.id in db.principals && principal == Some(db.principals[outcome.id])
    ensures forall id :: id in old(db.principals) && HasSub(old(db.principals)[id], sub) ==>
              IsKnownLogin(old(db.principals), db.principals, id, email, outcome)
    ensures !SubHeld(old(db.principals), sub) ==>
              forall id :: id in old(db.principals) && HasEmail(old(db.principals)[id], email) ==>
                IsInvitedLogin(old(db.principals), db.principals, id, sub, email, outcome)
    ensures !SubHeld(old(db.principals), sub) && !EmailHeld(old(db.principals), email) ==>
              IsFirstLogin(old(db.principals), db.principals, newId, sub, email, outcome)
  {
    ghost var t := db.principals;
    ghost var start := Session(sub, email, BySub, 0, false);
    FinishAfterCall(t, start, newId);
    // 1. By sub: a returning user.
    var bySub := db.GetUserByExternalId(sub);
    if bySub.Some? {
      var row := db.principals[bySub.value];
      if row.disabled {
        return Disabled, None;
      }
      if row.email != Some(email) || row.displayName != email {
        FinishAfterCall(t, start.(pc := Refresh(bySub.value), calls := 1), newId);
        // A collision on the new email is not fatal: the user is known by sub.
        var threw := db.RefreshLabel(bySub.value, email);
        if threw {
          return Ok(bySub.value), Some(row);
        }
      }
      return Ok(bySub.value), Some(row.(email := Some(email), displayName := email));
    }
    FinishAfterCall(t, start.(pc := ByEmail, calls := 1), newId);
    // 2. By verified email: an invite to claim, or somebody else's.
    var byEmail := db.GetUserByEmail(email);
    if byEmail.Some? {
      var row := db.principals[byEmail.value];
      if row.externalId.None? {
        if row.disabled {
          return Disabled, None;
        }
        var threw, claimed := db.ClaimInvited(byEmail.value, sub, email);
        if threw {
          return Crashed, None;
        }
        if claimed.Some? {
          return Ok(byEmail.value), claimed;
        }
        outcome, principal := Reread(db, sub);
        return;
      }
      return UnknownPrincipal, None;
    }
    // 3. Create, with no grants.
    FinishAfterCall(t, start.(pc := Create, calls := 2), newId);
    var threw, created := db.Create(newId, sub, email);
    if !threw {
      return Ok(newId), created;
    }
    outcome, principal := Reread(db, sub);
  }

  method Reread(db: UserStore, sub: string) returns (outcome: Outcome, principal: Option<Row>)
    requires db.Valid()
    ensures AfterReread(db.principals, sub) == Done(outcome)
    ensures principal.Some? <==> outcome.Ok?
    ensures outcome.Ok? ==> outcome.id in db.principals && principal == Some(db.principals[outcome.id])
  {
    var found := db.GetUserByExternalId(sub);
    if found.None? {
      return UnknownPrincipal, None;
    }
    var row := db.principals[found.value];
    if row.disabled {
      return Disabled, None;
    }
    return Ok(found.value), Some(row);
  }
}
