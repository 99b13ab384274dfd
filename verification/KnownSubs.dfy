/**
 * How logins end: for each outcome exactly which calls lead to it, and which subs can be turned away as
 * unknown.
 */
module KnownSubs {
  import opened Common
  import opened Login
  import opened LoginOutcomes

  predicate EndedWith(s: State, l: nat, outcome: Outcome) {
    l in s.logins && s.logins[l].pc == Done(outcome)
  }

  predicate RefusedAsUnknown(s: State, l: nat) {
    EndedWith(s, l, UnknownPrincipal)
  }

  // ── The call that ends a login ─────────────────────────────────────────────

  /** Event `k` is the call that ended login `l`. */
  ghost predicate EndsAt(events: seq<Event>, k: nat, l: nat) {
    && k < |events| && events[k].Call? && events[k].login == l
    && Underway(Run(events[..k]), l) && !Underway(Run(events[..k + 1]), l)
  }

  lemma {:induction false} EveryEndHasItsCall(events: seq<Event>, l: nat)
    requires l in Run(events).logins && Run(events).logins[l].pc.Done?
    ensures exists k: nat :: EndsAt(events, k, l)
  {
    var n := |events| - 1;
    var init := events[..n];
    assert events[..n + 1] == events;
    if l in Run(init).logins && Run(init).logins[l].pc.Done? {
      EveryEndHasItsCall(init, l);
      var k: nat :| EndsAt(init, k, l);
      assert init[..k] == events[..k] && init[..k + 1] == events[..k + 1];
      assert EndsAt(events, k, l);
    } else {
      assert EndsAt(events, n, l);
    }
  }

  /** What a login ended with, it keeps. */
  lemma {:induction false} EndIsFinal(events: seq<Event>, k: nat, l: nat)
    requires k <= |events| && l in Run(events[..k]).logins && Run(events[..k]).logins[l].pc.Done?
    ensures l in Run(events).logins && Run(events).logins[l] == Run(events[..k]).logins[l]
  {
    if k == |events| {
      assert events[..k] == events;
    } else {
      var init := events[..|events| - 1];
      assert init[..k] == events[..k];
      EndIsFinal(init, k, l);
    }
  }

  lemma StepAt(events: seq<Event>, k: nat)
    requires k < |events|
    ensures Run(events[..k + 1]) == Step(Run(events[..k]), events[k])
  {
    RunExtends(events[..k], events[k]);
    assert events[..k] + [events[k]] == events[..k + 1];
  }

  // ── Which calls end it how ─────────────────────────────────────────────────

  /** The email read answered with a row that somebody had claimed. */
  ghost predicate EmailReadMetAClaimedRow(s: State, e: Event, l: nat)
    requires l in s.logins && e.Call?
  {
    && s.logins[l].pc.ByEmail? && e.fault.NoFault?
    && FindByEmail(s.table, s.logins[l].email).Some?
    && s.table[FindByEmail(s.table, s.logins[l].email).value].externalId.Some?
  }

  /** The re-read after a lost claim or a failed insert answered, and nobody had the sub. */
  ghost predicate RereadFoundNobody(s: State, e: Event, l: nat)
    requires l in s.logins && e.Call?
  {
    && (s.logins[l].pc.RereadAfterClaim? || s.logins[l].pc.RereadAfterCreate?) && e.fault.NoFault?
    && !SubHeld(s.table, s.logins[l].sub)
  }

  lemma CallRefusesIff(s: State, e: Event, l: nat)
    requires e.Call? && e.login == l && Underway(s, l)
    ensures RefusedAsUnknown(Step(s, e), l) <==> EmailReadMetAClaimedRow(s, e, l) || RereadFoundNobody(s, e, l)
  {
  }

  /** For every login and every way it can end: it is refused as unknown by these two reads and no others. */
  lemma RefusedExactlyWhen(events: seq<Event>, k: nat, l: nat)
    requires EndsAt(events, k, l)
    ensures RefusedAsUnknown(Run(events), l) <==>
              EmailReadMetAClaimedRow(Run(events[..k]), events[k], l) || RereadFoundNobody(Run(events[..k]), events[k], l)
  {
    StepAt(events, k);
    CallRefusesIff(Run(events[..k]), events[k], l);
    EndIsFinal(events, k + 1, l);
  }

  /** The by-sub reads: the first, and the re-reads after a lost claim or a failed insert. */
  predicate ReadsBySub(pc: Pc) {
    pc.BySub? || pc.RereadAfterClaim? || pc.RereadAfterCreate?
  }

  /** The call answered with a disabled row: the sub's own, or an unclaimed one under the email. */
  ghost predicate MetADisabledRow(s: State, e: Event, l: nat)
    requires l in s.logins && e.Call?
  {
    && e.fault.NoFault?
    && exists i :: i in s.table && s.table[i].disabled
         && ((ReadsBySub(s.logins[l].pc) && HasSub(s.table[i], s.logins[l].sub))
             || (s.logins[l].pc.ByEmail? && HasEmail(s.table[i], s.logins[l].email) && s.table[i].externalId.None?))
  }

  lemma CallDisablesIff(s: State, e: Event, l: nat)
    requires UniqueIndexes(s.table) && e.Call? && e.login == l && Underway(s, l)
    ensures Step(s, e).logins[l].pc == Done(Disabled) <==> MetADisabledRow(s, e, l)
  {
  }

  /** For every login and every way it can end: it is refused as disabled by such a row and nothing else. */
  lemma DisabledExactlyWhen(events: seq<Event>, k: nat, l: nat)
    requires EndsAt(events, k, l)
    ensures EndedWith(Run(events), l, Disabled) <==> MetADisabledRow(Run(events[..k]), events[k], l)
  {
    AlwaysGood(events[..k]);
    StepAt(events, k);
    CallDisablesIff(Run(events[..k]), events[k], l);
    EndIsFinal(events, k + 1, l);
  }

  /**
   * The call let the login in as `id`: it found the sub's own enabled row (with its label current, if that
   * was the first read), was a refresh of it, claimed it, or inserted it.
   */
  ghost predicate LetInAs(s: State, e: Event, l: nat, id: Id)
    requires l in s.logins && e.Call?
  {
    var me, t := s.logins[l], s.table;
    match me.pc
    case BySub => e.fault.NoFault? && id in t && HasSub(t[id], me.sub) && !t[id].disabled
                  && t[id].email == Some(me.email) && t[id].displayName == me.email
    case RereadAfterClaim => e.fault.NoFault? && id in t && HasSub(t[id], me.sub) && !t[id].disabled
    case RereadAfterCreate => e.fault.NoFault? && id in t && HasSub(t[id], me.sub) && !t[id].disabled
    case Refresh(known) => id == known
    case Claim(invited) => e.fault.NoFault? && id == invited && id in t && t[id].isUser && t[id].externalId.None? && !SubHeld(t, me.sub)
    case Create => e.fault.NoFault? && id == e.newId && id !in t && !SubHeld(t, me.sub)
                   && forall i :: i in t ==> !HasEmail(t[i], me.email)
    case _ => false
  }

  lemma CallLetsInIff(s: State, e: Event, l: nat, id: Id)
    requires UniqueIndexes(s.table) && e.Call? && e.login == l && Underway(s, l)
    ensures Step(s, e).logins[l].pc == Done(Ok(id)) <==> LetInAs(s, e, l, id)
  {
    var me, t := s.logins[l], s.table;
    if ReadsBySub(me.pc) && id in t && HasSub(t[id], me.sub) {
      OneRowPerSub(t, id, FindBySub(t, me.sub).value, me.sub);
    }
  }

  lemma SucceededExactlyWhen(events: seq<Event>, k: nat, l: nat, id: Id)
    requires EndsAt(events, k, l)
    ensures EndedWith(Run(events), l, Ok(id)) <==> LetInAs(Run(events[..k]), events[k], l, id)
  {
    AlwaysGood(events[..k]);
    StepAt(events, k);
    CallLetsInIff(Run(events[..k]), events[k], l, id);
    EndIsFinal(events, k + 1, l);
  }

  /** A read or a claim was lost in transit, or the claim met another user with the sub. */
  ghost predicate CallThrew(s: State, e: Event, l: nat)
    requires l in s.logins && e.Call?
  {
    var me, t := s.logins[l], s.table;
    if me.pc.Claim? && e.fault.NoFault? then
      me.pc.invited in t && t[me.pc.invited].isUser && t[me.pc.invited].externalId.None? && SubHeld(t, me.sub)
    else !e.fault.NoFault? && (ReadsBySub(me.pc) || me.pc.ByEmail? || me.pc.Claim?)
  }

  lemma CallCrashesIff(s: State, e: Event, l: nat)
    requires e.Call? && e.login == l && Underway(s, l)
    ensures Step(s, e).logins[l].pc == Done(Crashed) <==> CallThrew(s, e, l)
  {
  }

  lemma CrashedExactlyWhen(events: seq<Event>, k: nat, l: nat)
    requires EndsAt(events, k, l)
    ensures EndedWith(Run(events), l, Crashed) <==> CallThrew(Run(events[..k]), events[k], l)
  {
    StepAt(events, k);
    CallCrashesIff(Run(events[..k]), events[k], l);
    EndIsFinal(events, k + 1, l);
  }

  /** If the sub is bound when its login ends, only an email read that met a claimed row refuses it. */
  lemma KnownSubIsRefusedIff(events: seq<Event>, k: nat, l: nat)
    requires EndsAt(events, k, l) && SubHeld(Run(events[..k + 1]).table, Run(events[..k]).logins[l].sub)
    ensures RefusedAsUnknown(Run(events), l) <==> EmailReadMetAClaimedRow(Run(events[..k]), events[k], l)
  {
    RefusedExactlyWhen(events, k, l);
    StepAt(events, k);
    RereadChangesNoRow(Run(events[..k]), events[k], l);
  }

  lemma RereadChangesNoRow(s: State, e: Event, l: nat)
    requires e.Call? && e.login == l && Underway(s, l)
    ensures RereadFoundNobody(s, e, l) ==> !SubHeld(Step(s, e).table, s.logins[l].sub)
  {
  }

  // ── Whom it can happen to ──────────────────────────────────────────────────

  /** A login of a bound sub reads its own row first, and goes no further than refreshing it. */
  ghost predicate OnItsOwnRow(s: State, l: nat, sub: string) {
    && SubHeld(s.table, sub) && l in s.logins && s.logins[l].sub == sub
    && (s.logins[l].pc.BySub? || s.logins[l].pc.Refresh? || s.logins[l].pc.Done?)
    && !RefusedAsUnknown(s, l)
  }

  lemma StaysOnItsOwnRow(s: State, e: Event, l: nat, sub: string)
    requires OnItsOwnRow(s, l, sub)
    ensures OnItsOwnRow(Step(s, e), l, sub)
  {
    StepKeepsBindings(s, e);
    SubHeldSurvives(s.table, Step(s, e).table, sub);
  }

  lemma {:induction false} AlwaysOnItsOwnRow(events: seq<Event>, l: nat, sub: string, email: string, later: seq<Event>)
    requires SubHeld(Run(events).table, sub) && l !in Run(events).logins
    ensures OnItsOwnRow(Run(events + [Begin(l, sub, email)] + later), l, sub)
  {
    var begun := events + [Begin(l, sub, email)];
    if later == [] {
      RunExtends(events, Begin(l, sub, email));
      assert begun + later == begun;
    } else {
      var init, last := later[..|later| - 1], later[|later| - 1];
      AlwaysOnItsOwnRow(events, l, sub, email, init);
      RunExtends(begun + init, last);
      assert begun + later == begun + init + [last];
      StaysOnItsOwnRow(Run(begun + init), last, l, sub);
    }
  }

  ghost predicate Invited(t: Table, id: Id, sub: string, email: string) {
    && UniqueIndexes(t) && !SubHeld(t, sub)
    && id in t && HasEmail(t[id], email) && t[id].externalId.None?
  }

  lemma EnablingKeepsTheInvite(events: seq<Event>, id: Id, sub: string, email: string)
    requires Invited(Run(events).table, id, sub, email)
    ensures var after := Run(events + [SetDisabled(id, false)]);
            && after.logins == Run(events).logins && Invited(after.table, id, sub, email) && !after.table[id].disabled
  {
    RunExtends(events, SetDisabled(id, false));
    var t, u := Run(events).table, Run(events + [SetDisabled(id, false)]).table;
    assert forall i :: i in u && HasSub(u[i], sub) ==> HasSub(t[i], sub);
  }

  lemma NewLoginMissesBySub(events: seq<Event>, m: nat, sub: string, email: string, newId: Id)
    requires !SubHeld(Run(events).table, sub) && m !in Run(events).logins
    ensures Run(events + [Begin(m, sub, email)] + [Call(m, newId, NoFault)])
         == State(Run(events).table, Run(events).logins[m := Session(sub, email, ByEmail, 1, false)])
  {
    RunExtends(events, Begin(m, sub, email));
    RunExtends(events + [Begin(m, sub, email)], Call(m, newId, NoFault));
  }

  /** A login with that email gets as far as the invited row. */
  lemma SiblingMeetsTheInvite(events: seq<Event>, m: nat, id: Id, sub: string, email: string)
    requires Invited(Run(events).table, id, sub, email) && !Run(events).table[id].disabled && m !in Run(events).logins
    ensures Run(events + [Begin(m, sub, email)] + [Call(m, id, NoFault)] + [Call(m, id, NoFault)])
         == State(Run(events).table, Run(events).logins[m := Session(sub, email, Claim(id), 2, false)])
  {
    NewLoginMissesBySub(events, m, sub, email, id);
    RunExtends(events + [Begin(m, sub, email)] + [Call(m, id, NoFault)], Call(m, id, NoFault));
    assert FindByEmail(Run(events).table, email) == Some(id);
  }

  lemma InviteIsClaimed(events: seq<Event>, m: nat, id: Id, sub: string, email: string)
    requires Invited(Run(events).table, id, sub, email)
    requires m in Run(events).logins && Run(events).logins[m] == Session(sub, email, Claim(id), 2, false)
    ensures var u := Run(events + [Call(m, id, NoFault)]);
            && UniqueIndexes(u.table) && id in u.table && HasEmail(u.table[id], email) && u.table[id].externalId == Some(sub)
            && u.logins == Run(events).logins[m := Session(sub, email, Done(Ok(id)), 3, false)]
  {
    var t := Run(events).table;
    assert !SubTakenByAnother(t, id, sub);
    ClaimKeepsIndexes(t, id, sub, email);
    RunExtends(events, Call(m, id, NoFault));
  }

  /** ... and, once the row is enabled, claims it. */
  lemma SiblingClaims(events: seq<Event>, m: nat, id: Id, sub: string, email: string) returns (later: seq<Event>)
    requires Invited(Run(events).table, id, sub, email) && m !in Run(events).logins
    ensures var t := Run(events + later).table;
            UniqueIndexes(t) && id in t && HasEmail(t[id], email) && t[id].externalId == Some(sub)
    ensures Run(events + later).logins == Run(events).logins[m := Session(sub, email, Done(Ok(id)), 3, false)]
  {
    var enable, begin, call := SetDisabled(id, false), Begin(m, sub, email), Call(m, id, NoFault);
    EnablingKeepsTheInvite(events, id, sub, email);
    SiblingMeetsTheInvite(events + [enable], m, id, sub, email);
    var met := events + [enable] + [begin] + [call] + [call];
    InviteIsClaimed(met, m, id, sub, email);
    later := [enable, begin, call, call, call];
    assert events + later == met + [call];
  }

  /** Whoever's row it is, a claimed row under the email refuses a login about to read by email. */
  lemma EmailReadRefuses(events: seq<Event>, l: nat)
    requires Underway(Run(events), l) && EmailReadMetAClaimedRow(Run(events), Call(l, "", NoFault), l)
    ensures var end := Run(events + [Call(l, "", NoFault)]);
            RefusedAsUnknown(end, l) && end.logins[l].insertLost == Run(events).logins[l].insertLost
  {
    RunExtends(events, Call(l, "", NoFault));
  }

  /** Somebody has, or is given, a row under the email; it can be claimed while the login is underway. */
  lemma SomebodyClaimsTheEmail(events: seq<Event>, l: nat, sub: string, email: string) returns (later: seq<Event>)
    requires l in Run(events).logins && !SubHeld(Run(events).table, sub)
    ensures l in Run(events + later).logins && Run(events + later).logins[l] == Run(events).logins[l]
    ensures var found := FindByEmail(Run(events + later).table, email);
            found.Some? && Run(events + later).table[found.value].externalId.Some?
  {
    AlwaysGood(events);
    var found := FindByEmail(Run(events).table, email);
    if found.Some? && Run(events).table[found.value].externalId.Some? {
      assert events + [] == events;
      return [];
    }
    var id;
    later := [];
    if found.Some? {
      id := found.value;
    } else {
      id := FreshString(Run(events).table.Keys);
      RunExtends(events, Invite(id, email));
      later := [Invite(id, email)];
      AlwaysGood(events + later);
    }
    assert events + [] == events;
    var m := FreshNat(Run(events).logins.Keys);
    assert Invited(Run(events + later).table, id, sub, email);
    var claim := SiblingClaims(events + later, m, id, sub, email);
    assert events + (later + claim) == events + later + claim;
    later := later + claim;
    assert HasEmail(Run(events + later).table[id], email);
  }

  /** A login of a sub nobody holds yet may be refused, with every store call answered. */
  lemma UnknownSubMayBeRefused(events: seq<Event>, l: nat, sub: string, email: string) returns (later: seq<Event>)
    requires l !in Run(events).logins && !SubHeld(Run(events).table, sub)
    ensures RefusedAsUnknown(Run(events + [Begin(l, sub, email)] + later), l)
    ensures !Run(events + [Begin(l, sub, email)] + later).logins[l].insertLost
  {
    var begun := events + [Begin(l, sub, email)];
    var call := Call(l, "", NoFault);
    RunExtends(events, Begin(l, sub, email));
    RunExtends(begun, call);
    var read := begun + [call];
    assert Run(read).table == Run(events).table;
    assert Run(read).logins[l] == Session(sub, email, ByEmail, 1, false);
    var claim := SomebodyClaimsTheEmail(read, l, sub, email);
    EmailReadRefuses(read + claim, l);
    later := [call] + claim + [call];
    assert begun + later == read + claim + [call];
  }

  /**
   * A login can be turned away as unknown, whatever else happens while it runs, exactly if its sub is
   * nobody's when it begins.
   */
  lemma NeverRefusedIffKnown(events: seq<Event>, l: nat, sub: string, email: string)
    requires l !in Run(events).logins
    ensures (forall later :: !RefusedAsUnknown(Run(events + [Begin(l, sub, email)] + later), l))
       <==> SubHeld(Run(events).table, sub)
  {
    if SubHeld(Run(events).table, sub) {
      forall later ensures !RefusedAsUnknown(Run(events + [Begin(l, sub, email)] + later), l) {
        AlwaysOnItsOwnRow(events, l, sub, email, later);
      }
    } else {
      var later := UnknownSubMayBeRefused(events, l, sub, email);
    }
  }
}
