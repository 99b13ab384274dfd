/**
 * Cancelling an invite the way the admin handler does: one call checks that nobody has claimed the row,
 * a later one deletes it, and logins go on in between.
 */
module InviteCancel {
  import opened Common
  import opened Login
  import opened LoginOutcomes

  /** `checked` holds the ids whose check has passed and whose delete is still to come. */
  datatype Cancelling = Cancelling(system: State, checked: set<Id>)

  datatype CancelEvent = Plain(event: Event) | CheckInvite(id: Id) | DeleteChecked(id: Id)

  predicate IsInvite(t: Table, id: Id) {
    id in t && t[id].isUser && t[id].externalId.None? && !t[id].disabled
  }

  function Without(s: State, id: Id): State {
    s.(table := s.table - {id})
  }

  ghost function CancelStep(x: Cancelling, e: CancelEvent): Cancelling {
    match e
    case Plain(event) => x.(system := Step(x.system, event))
    case CheckInvite(id) => if IsInvite(x.system.table, id) then x.(checked := x.checked + {id}) else x
    case DeleteChecked(id) =>
      if id in x.checked then Cancelling(Without(x.system, id), x.checked - {id}) else x
  }

  ghost function CancelRun(events: seq<CancelEvent>): Cancelling {
    if events == [] then Cancelling(Run([]), {})
    else CancelStep(CancelRun(events[..|events| - 1]), events[|events| - 1])
  }

  // ── Harmless cancels ───────────────────────────────────────────────────────

  /** The event deletes a row that was claimed after its check. */
  predicate DeletesAClaim(x: Cancelling, e: CancelEvent) {
    && e.DeleteChecked? && e.id in x.checked
    && e.id in x.system.table && x.system.table[e.id].externalId.Some?
  }

  /** Bound rows stay bound through an event exactly when it is not such a delete. */
  lemma BindingsAreKeptIff(x: Cancelling, e: CancelEvent)
    ensures BindingsKept(x.system.table, CancelStep(x, e).system.table) <==> !DeletesAClaim(x, e)
  {
    if e.Plain? {
      StepKeepsBindings(x.system, e.event);
    }
  }

  ghost predicate NoClaimIsDeleted(events: seq<CancelEvent>) {
    forall k :: 0 <= k < |events| ==> !DeletesAClaim(CancelRun(events[..k]), events[k])
  }

  lemma StepKeepsGoodUnless(x: Cancelling, e: CancelEvent)
    requires Good(x.system) && !DeletesAClaim(x, e)
    ensures Good(CancelStep(x, e).system)
  {
    BindingsAreKeptIff(x, e);
    var s, u := x.system, CancelStep(x, e).system;
    if e.Plain? {
      StepKeepsGood(s, e.event);
    } else {
      forall l | l in u.logins ensures Settled(u.table, u.logins[l]) {
        SettledSurvives(s.table, u.table, s.logins[l]);
      }
    }
  }

  lemma {:induction false} GoodUnlessAClaimIsDeleted(events: seq<CancelEvent>)
    requires NoClaimIsDeleted(events)
    ensures Good(CancelRun(events).system)
  {
    if events == [] {
      AlwaysGood([]);
    } else {
      var init, n := events[..|events| - 1], |events| - 1;
      forall k | 0 <= k < n ensures !DeletesAClaim(CancelRun(init[..k]), init[k]) {
        assert init[..k] == events[..k];
      }
      GoodUnlessAClaimIsDeleted(init);
      assert events[..n] == init;
      StepKeepsGoodUnless(CancelRun(init), events[n]);
    }
  }

  ghost predicate Agreement(s: State) {
    forall a, b :: Succeeded(s, a) && Succeeded(s, b) ==>
      (s.logins[a].pc.outcome.id == s.logins[b].pc.outcome.id <==> s.logins[a].sub == s.logins[b].sub)
  }

  lemma GoodAgrees(s: State)
    requires Good(s)
    ensures Agreement(s)
  {
  }

  /** Checks and deletes may interleave with logins at will, as long as no delete comes after a claim. */
  lemma LoginsAgreeUnlessAClaimIsDeleted(events: seq<CancelEvent>)
    requires NoClaimIsDeleted(events)
    ensures Agreement(CancelRun(events).system)
  {
    GoodUnlessAClaimIsDeleted(events);
    GoodAgrees(CancelRun(events).system);
  }

  // ── Harmful cancels ────────────────────────────────────────────────────────

  ghost function RunFrom(s: State, events: seq<Event>): State {
    if events == [] then s else Step(RunFrom(s, events[..|events| - 1]), events[|events| - 1])
  }

  lemma RunFromExtends(s: State, events: seq<Event>, e: Event)
    ensures RunFrom(s, events + [e]) == Step(RunFrom(s, events), e)
  {
    assert (events + [e])[..|events + [e]| - 1] == events;
  }

  lemma {:induction false} GoodStaysGood(s: State, events: seq<Event>)
    requires Good(s)
    ensures Good(RunFrom(s, events))
  {
    if events != [] {
      GoodStaysGood(s, events[..|events| - 1]);
      StepKeepsGood(RunFrom(s, events[..|events| - 1]), events[|events| - 1]);
    }
  }

  /** Some login has answered with the row, or is about to. */
  predicate IsAnswered(s: State, id: Id) {
    exists l :: l in s.logins && (s.logins[l].pc == Done(Ok(id)) || s.logins[l].pc == Refresh(id))
  }

  lemma UnansweredRowMayGo(s: State, id: Id)
    requires Good(s) && !IsAnswered(s, id)
    ensures Good(Without(s, id))
  {
    forall l | l in s.logins ensures Settled(s.table - {id}, s.logins[l]) {
      assert Settled(s.table, s.logins[l]);
    }
  }

  /** Once the row behind a success is gone, the next login of its sub under an unused email is somebody else. */
  lemma NextLoginIsSomebodyElse(s: State, a: nat, b: nat, email: string, newId: Id) returns (events: seq<Event>)
    requires Succeeded(s, a) && b !in s.logins && !SubHeld(s.table, s.logins[a].sub)
    requires FindByEmail(s.table, email).None? && newId !in s.table && newId != s.logins[a].pc.outcome.id
    ensures !Agreement(RunFrom(s, events))
  {
    var sub, call := s.logins[a].sub, Call(b, newId, NoFault);
    RunFromExtends(s, [], Begin(b, sub, email));
    events := [] + [Begin(b, sub, email)];
    RunFromExtends(s, events, call);
    events := events + [call];
    assert RunFrom(s, events) == State(s.table, s.logins[b := Session(sub, email, ByEmail, 1, false)]);
    RunFromExtends(s, events, call);
    events := events + [call];
    assert RunFrom(s, events) == State(s.table, s.logins[b := Session(sub, email, Create, 2, false)]);
    assert CreateUser(s.table, newId, sub, email).Committed?;
    RunFromExtends(s, events, call);
    events := events + [call];
    var end := RunFrom(s, events);
    assert Succeeded(end, a) && Succeeded(end, b);
  }

  lemma SubGoesWithItsRow(t: Table, id: Id, sub: string)
    requires SubIndex(t) && id in t && HasSub(t[id], sub)
    ensures !SubHeld(t - {id}, sub)
  {
    if i :| i in t - {id} && HasSub((t - {id})[i], sub) {
      OneRowPerSub(t, i, id, sub);
    }
  }

  /** A login that was about to refresh the row answers with it although it is gone. */
  lemma RefreshAnswersAnyway(s: State, l: nat, id: Id)
    requires l in s.logins && s.logins[l].pc == Refresh(id) && id !in s.table
    ensures var end := Step(s, Call(l, "", NoFault));
            && end.table == s.table && end.logins == s.logins[l := s.logins[l].(pc := Done(Ok(id)), calls := s.logins[l].calls + 1)]
  {
  }

  lemma {:induction false} RunFromConcat(s: State, a: seq<Event>, b: seq<Event>)
    ensures RunFrom(s, a + b) == RunFrom(RunFrom(s, a), b)
  {
    if b == [] {
      assert a + b == a;
    } else {
      RunFromConcat(s, a, b[..|b| - 1]);
      assert (a + b)[..|a + b| - 1] == a + b[..|b| - 1];
    }
  }

  /** Whoever's answer it was, deleting the row lets two successes of one sub part ways. */
  lemma HardDeleteWouldSplitASub(s: State, id: Id) returns (events: seq<Event>)
    requires Good(s) && IsAnswered(s, id)
    ensures !Agreement(RunFrom(Without(s, id), events))
  {
    var l :| l in s.logins && (s.logins[l].pc == Done(Ok(id)) || s.logins[l].pc == Refresh(id));
    var gone, sub := Without(s, id), s.logins[l].sub;
    assert Settled(s.table, s.logins[l]);
    SubGoesWithItsRow(s.table, id, sub);
    var first: seq<Event> := [];
    if s.logins[l].pc == Refresh(id) {
      first := [Call(l, "", NoFault)];
      RefreshAnswersAnyway(gone, l, id);
      RunFromExtends(gone, [], first[0]);
      assert [] + [first[0]] == first;
    }
    var answered := RunFrom(gone, first);
    var b := FreshNat(s.logins.Keys);
    var newId := FreshString(s.table.Keys + {id});
    var emails := set i | i in gone.table && gone.table[i].email.Some? :: gone.table[i].email.value;
    var email := FreshString(emails);
    assert FindByEmail(gone.table, email).None?;
    var rest := NextLoginIsSomebodyElse(answered, l, b, email, newId);
    RunFromConcat(gone, first, rest);
    events := first + rest;
  }

  /**
   * A checked delete is harmless, whatever follows, exactly if no login has answered with the row or is
   * about to.
   */
  lemma DeleteKeepsAgreementIff(x: Cancelling, id: Id)
    requires Good(x.system) && id in x.checked
    ensures (forall events :: Agreement(RunFrom(CancelStep(x, DeleteChecked(id)).system, events)))
       <==> !IsAnswered(x.system, id)
  {
    var gone := CancelStep(x, DeleteChecked(id)).system;
    assert gone == Without(x.system, id);
    if IsAnswered(x.system, id) {
      var events := HardDeleteWouldSplitASub(x.system, id);
      assert !Agreement(RunFrom(gone, events));
    } else {
      UnansweredRowMayGo(x.system, id);
      forall events ensures Agreement(RunFrom(gone, events)) {
        GoodStaysGood(gone, events);
        GoodAgrees(RunFrom(gone, events));
      }
    }
  }

  // ── The race ───────────────────────────────────────────────────────────────

  lemma CancelRunExtends(events: seq<CancelEvent>, e: CancelEvent)
    ensures CancelRun(events + [e]) == CancelStep(CancelRun(events), e)
  {
    assert (events + [e])[..|events + [e]| - 1] == events;
  }

  /** From nothing: an invite, and a login that finds it. */
  lemma InviteIsMet(id: Id, sub: string, email: string) returns (events: seq<CancelEvent>)
    ensures CancelRun(events) == Cancelling(
              State(map[id := Row(true, None, Some(email), email, false)], map[0 := Session(sub, email, Claim(id), 2, false)]), {})
  {
    var row := Row(true, None, Some(email), email, false);
    var call := Plain(Call(0, id, NoFault));
    CancelRunExtends([], Plain(Invite(id, email)));
    events := [] + [Plain(Invite(id, email))];
    CancelRunExtends(events, Plain(Begin(0, sub, email)));
    events := events + [Plain(Begin(0, sub, email))];
    CancelRunExtends(events, call);
    events := events + [call];
    assert CancelRun(events) == Cancelling(State(map[id := row], map[0 := Session(sub, email, ByEmail, 1, false)]), {});
    assert HasEmail(row, email) && FindByEmail(map[id := row], email) == Some(id);
    CancelRunExtends(events, call);
    events := events + [call];
  }

  /** Then a cancel that checks it, and the login's claim. */
  lemma RaceIsReached(id: Id, sub: string, email: string) returns (events: seq<CancelEvent>)
    ensures Good(CancelRun(events).system) && id in CancelRun(events).checked
    ensures IsAnswered(CancelRun(events).system, id)
  {
    var row := Row(true, None, Some(email), email, false);
    var call := Plain(Call(0, id, NoFault));
    events := InviteIsMet(id, sub, email);
    CancelRunExtends(events, CheckInvite(id));
    events := events + [CheckInvite(id)];
    assert CancelRun(events) == Cancelling(State(map[id := row], map[0 := Session(sub, email, Claim(id), 2, false)]), {id});
    CancelRunExtends(events, call);
    events := events + [call];
    var end := CancelRun(events).system;
    assert end == State(map[id := row.(externalId := Some(sub))], map[0 := Session(sub, email, Done(Ok(id)), 3, false)]);
    assert 0 in end.logins;
  }

  /** So a cancel that loses the race to a claim and deletes all the same splits that login's sub. */
  lemma RacingCancelSplitsASub(id: Id, sub: string, email: string)
    returns (events: seq<CancelEvent>, later: seq<Event>)
    ensures !Agreement(RunFrom(CancelRun(events + [DeleteChecked(id)]).system, later))
  {
    events := RaceIsReached(id, sub, email);
    later := HardDeleteWouldSplitASub(CancelRun(events).system, id);
    CancelRunExtends(events, DeleteChecked(id));
  }
}
