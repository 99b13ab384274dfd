/**
 * What the outcome of a login says about the moments it spanned, and how many store calls it takes.
 */
module LoginOutcomes {
  import opened Common
  import opened Login

  // ── Length ─────────────────────────────────────────────────────────────────

  /** Store calls still ahead at most. */
  function CallsLeft(pc: Pc): nat {
    match pc
    case BySub => 4
    case ByEmail => 3
    case Claim(_) => 2
    case Create => 2
    case Refresh(_) => 1
    case RereadAfterClaim => 1
    case RereadAfterCreate => 1
    case Done(_) => 0
  }

  lemma CallShortens(t: Table, s: Session, newId: Id, fault: Fault)
    requires !s.pc.Done?
    ensures SessionAfter(t, s, newId, fault).calls == s.calls + 1
    ensures CallsLeft(SessionAfter(t, s, newId, fault).pc) < CallsLeft(s.pc)
  {
  }

  lemma {:induction false} CallsAreBounded(events: seq<Event>, l: nat)
    requires l in Run(events).logins
    ensures Run(events).logins[l].calls + CallsLeft(Run(events).logins[l].pc) <= 4
  {
    var init, last := events[..|events| - 1], events[|events| - 1];
    if l in Run(init).logins {
      CallsAreBounded(init, l);
      if last.Call? && last.login == l && !Run(init).logins[l].pc.Done? {
        CallShortens(Run(init).table, Run(init).logins[l], last.newId, last.fault);
      }
    }
  }

  /** Every answered or failed call brings a login nearer its end; four calls always suffice. */
  lemma LoginEndsWithinFourCalls(events: seq<Event>, l: nat, newId: Id, fault: Fault)
    requires l in Run(events).logins
    ensures var before, after := Run(events).logins[l], Run(events + [Call(l, newId, fault)]).logins[l];
            && (before.pc.Done? ==> after == before)
            && (!before.pc.Done? ==> after.calls == before.calls + 1)
            && after.calls <= 4
            && (after.calls == 4 ==> after.pc.Done?)
  {
    var call := Call(l, newId, fault);
    assert (events + [call])[..|events + [call]| - 1] == events;
    CallsAreBounded(events + [call], l);
  }

  // ── Witnesses ──────────────────────────────────────────────────────────────

  predicate Underway(s: State, l: nat) {
    l in s.logins && !s.logins[l].pc.Done?
  }

  /** State `k` of the run lies within login `l`, its last call included. */
  ghost predicate During(events: seq<Event>, k: nat, l: nat)
    requires k <= |events|
  {
    Underway(Run(events[..k]), l)
    || (0 < k && Underway(Run(events[..k - 1]), l) && l in Run(events[..k]).logins)
  }

  ghost predicate EnabledDuring(events: seq<Event>, l: nat, id: Id) {
    exists k: nat :: k <= |events| && During(events, k, l)
      && id in Run(events[..k]).table && !Run(events[..k]).table[id].disabled
  }

  ghost predicate EmailHeldDuring(events: seq<Event>, l: nat, email: string) {
    exists k: nat, i :: k <= |events| && During(events, k, l)
      && i in Run(events[..k]).table && HasEmail(Run(events[..k]).table[i], email)
  }

  ghost predicate SubHeld(t: Table, sub: string) {
    exists i :: i in t && HasSub(t[i], sub)
  }

  ghost predicate Witnessed(events: seq<Event>, l: nat)
    requires l in Run(events).logins
  {
    var s := Run(events).logins[l];
    match s.pc
    case Refresh(id) => EnabledDuring(events, l, id)
    case Claim(id) => EnabledDuring(events, l, id) && EmailHeldDuring(events, l, s.email)
    case RereadAfterClaim => EmailHeldDuring(events, l, s.email)
    case RereadAfterCreate =>
      s.insertLost || EmailHeldDuring(events, l, s.email) || SubHeld(Run(events).table, s.sub)
    case Done(o) =>
      && (o.Ok? ==> EnabledDuring(events, l, o.id))
      && (o.UnknownPrincipal? ==> s.insertLost || EmailHeldDuring(events, l, s.email))
    case _ => true
  }

  lemma DuringSurvives(events: seq<Event>, e: Event, k: nat, l: nat)
    requires k <= |events|
    ensures During(events + [e], k, l) <==> During(events, k, l)
    ensures Run((events + [e])[..k]) == Run(events[..k])
  {
    assert (events + [e])[..k] == events[..k];
    if 0 < k {
      assert (events + [e])[..k - 1] == events[..k - 1];
    }
  }

  lemma EnabledDuringSurvives(events: seq<Event>, e: Event, l: nat, id: Id)
    requires EnabledDuring(events, l, id)
    ensures EnabledDuring(events + [e], l, id)
  {
    var k: nat :| k <= |events| && During(events, k, l)
      && id in Run(events[..k]).table && !Run(events[..k]).table[id].disabled;
    DuringSurvives(events, e, k, l);
  }

  lemma EmailHeldDuringSurvives(events: seq<Event>, e: Event, l: nat, email: string)
    requires EmailHeldDuring(events, l, email)
    ensures EmailHeldDuring(events + [e], l, email)
  {
    var k: nat, i :| k <= |events| && During(events, k, l)
      && i in Run(events[..k]).table && HasEmail(Run(events[..k]).table[i], email);
    DuringSurvives(events, e, k, l);
  }

  lemma SubHeldSurvives(t: Table, u: Table, sub: string)
    requires SubHeld(t, sub) && BindingsKept(t, u)
    ensures SubHeld(u, sub)
  {
    var i :| i in t && HasSub(t[i], sub);
    assert i in u && HasSub(u[i], sub);
  }

  /** Something true of a row while the login is about to make its call is true during the login. */
  lemma SeenNow(events: seq<Event>, l: nat, id: Id)
    requires Underway(Run(events), l) && id in Run(events).table
    ensures !Run(events).table[id].disabled ==> EnabledDuring(events, l, id)
    ensures forall email :: HasEmail(Run(events).table[id], email) ==> EmailHeldDuring(events, l, email)
  {
    assert events[..|events|] == events;
    assert During(events, |events|, l);
  }

  /** The row a call has just inserted was there when the login ended. */
  lemma CreatedNow(events: seq<Event>, e: Event, l: nat, id: Id)
    requires Underway(Run(events), l) && l in Run(events + [e]).logins
    requires id in Run(events + [e]).table && !Run(events + [e]).table[id].disabled
    ensures EnabledDuring(events + [e], l, id)
  {
    var all := events + [e];
    assert all[..|all|] == all && all[..|all| - 1] == events;
    assert During(all, |all|, l);
  }

  lemma OthersLeaveWitnesses(events: seq<Event>, e: Event, l: nat)
    requires l in Run(events).logins && Witnessed(events, l)
    requires l in Run(events + [e]).logins && Run(events + [e]).logins[l] == Run(events).logins[l]
    requires BindingsKept(Run(events).table, Run(events + [e]).table)
    ensures Witnessed(events + [e], l)
  {
    var s := Run(events).logins[l];
    if EmailHeldDuring(events, l, s.email) {
      EmailHeldDuringSurvives(events, e, l, s.email);
    }
    if SubHeld(Run(events).table, s.sub) {
      SubHeldSurvives(Run(events).table, Run(events + [e]).table, s.sub);
    }
    if s.pc.Refresh? {
      EnabledDuringSurvives(events, e, l, s.pc.known);
    } else if s.pc.Claim? {
      EnabledDuringSurvives(events, e, l, s.pc.invited);
    } else if s.pc.Done? && s.pc.outcome.Ok? {
      EnabledDuringSurvives(events, e, l, s.pc.outcome.id);
    }
  }

  /** The reads: whatever they decide is decided on the row they found. */
  lemma ReadBySubIsWitnessed(events: seq<Event>, e: Event)
    requires e.Call? && Underway(Run(events), e.login) && Witnessed(events, e.login)
    requires Run(events + [e]) == Step(Run(events), e)
    requires var pc := Run(events).logins[e.login].pc; pc.BySub? || pc.RereadAfterClaim? || pc.RereadAfterCreate?
    ensures Witnessed(events + [e], e.login)
  {
    var t, s, l := Run(events).table, Run(events).logins[e.login], e.login;
    if EmailHeldDuring(events, l, s.email) {
      EmailHeldDuringSurvives(events, e, l, s.email);
    }
    if e.fault.NoFault? {
      var found := FindBySub(t, s.sub);
      if found.Some? && !t[found.value].disabled {
        SeenNow(events, l, found.value);
        EnabledDuringSurvives(events, e, l, found.value);
      }
    }
  }

  lemma ReadByEmailIsWitnessed(events: seq<Event>, e: Event)
    requires e.Call? && Underway(Run(events), e.login) && Run(events).logins[e.login].pc.ByEmail?
    requires Run(events + [e]) == Step(Run(events), e)
    ensures Witnessed(events + [e], e.login)
  {
    var t, s, l := Run(events).table, Run(events).logins[e.login], e.login;
    if e.fault.NoFault? {
      var found := FindByEmail(t, s.email);
      if found.Some? {
        SeenNow(events, l, found.value);
        EmailHeldDuringSurvives(events, e, l, s.email);
        if !t[found.value].disabled {
          EnabledDuringSurvives(events, e, l, found.value);
        }
      }
    }
  }

  /** The writes: a claim or refresh relies on the row already seen, an insert on the row it made or hit. */
  lemma WriteIsWitnessed(events: seq<Event>, e: Event)
    requires e.Call? && Underway(Run(events), e.login) && Witnessed(events, e.login)
    requires Run(events + [e]) == Step(Run(events), e)
    requires var pc := Run(events).logins[e.login].pc; pc.Refresh? || pc.Claim?
    ensures Witnessed(events + [e], e.login)
  {
    var s, l := Run(events).logins[e.login], e.login;
    if s.pc.Refresh? {
      EnabledDuringSurvives(events, e, l, s.pc.known);
    } else {
      EnabledDuringSurvives(events, e, l, s.pc.invited);
      EmailHeldDuringSurvives(events, e, l, s.email);
    }
  }

  lemma InsertIsWitnessed(events: seq<Event>, e: Event)
    requires e.Call? && Underway(Run(events), e.login)
    requires Run(events + [e]) == Step(Run(events), e)
    requires Run(events).logins[e.login].pc.Create?
    ensures Witnessed(events + [e], e.login)
  {
    var t, s, l := Run(events).table, Run(events).logins[e.login], e.login;
    var w := CreateUser(t, e.newId, s.sub, s.email);
    if !e.fault.LostRequest? {
      if w.Committed? {
        CreatedNow(events, e, l, e.newId);
        assert HasSub(Run(events + [e]).table[e.newId], s.sub);
      } else if EmailTakenByAnother(t, e.newId, s.email) {
        var i :| i in t && i != e.newId && HasEmail(t[i], s.email);
        SeenNow(events, l, i);
        EmailHeldDuringSurvives(events, e, l, s.email);
      }
    }
  }

  lemma {:induction false} AlwaysWitnessed(events: seq<Event>, l: nat)
    requires l in Run(events).logins
    ensures Witnessed(events, l)
  {
    var init, last := events[..|events| - 1], events[|events| - 1];
    assert init + [last] == events;
    if l in Run(init).logins {
      AlwaysWitnessed(init, l);
      StepKeepsBindings(Run(init), last);
      var pc := Run(init).logins[l].pc;
      if !last.Call? || last.login != l || pc.Done? {
        OthersLeaveWitnesses(init, last, l);
      } else if pc.Refresh? || pc.Claim? {
        WriteIsWitnessed(init, last);
      } else if pc.Create? {
        InsertIsWitnessed(init, last);
      } else if pc.ByEmail? {
        ReadByEmailIsWitnessed(init, last);
      } else {
        ReadBySubIsWitnessed(init, last);
      }
    }
  }

  /** A successful login's principal was enabled at some moment of that login. */
  lemma SuccessWasEnabled(events: seq<Event>, l: nat)
    requires Succeeded(Run(events), l)
    ensures EnabledDuring(events, l, Run(events).logins[l].pc.outcome.id)
  {
    AlwaysWitnessed(events, l);
  }

  /**
   * A login turned away as unknown met a user holding its email, unless its insert never reached the
   * table.
   */
  lemma UnknownMetItsEmail(events: seq<Event>, l: nat)
    requires l in Run(events).logins && Run(events).logins[l].pc == Done(UnknownPrincipal)
    requires !Run(events).logins[l].insertLost
    ensures EmailHeldDuring(events, l, Run(events).logins[l].email)
  {
    AlwaysWitnessed(events, l);
  }

  // ── Limits ─────────────────────────────────────────────────────────────────

  lemma TwoLoginsMissBySub(id: Id, sub: string, email: string) returns (events: seq<Event>)
    ensures Run(events) == State(map[id := Row(true, None, Some(email), email, false)],
                                 map[0 := Session(sub, email, ByEmail, 1, false), 1 := Session(sub, email, ByEmail, 1, false)])
  {
    var row := Row(true, None, Some(email), email, false);
    var begun := Session(sub, email, BySub, 0, false);
    events := [Invite(id, email)];
    RunExtends([], Invite(id, email));
    assert [] + events == events;
    assert Run(events) == State(map[id := row], map[]);
    RunExtends(events, Begin(0, sub, email));
    events := events + [Begin(0, sub, email)];
    RunExtends(events, Begin(1, sub, email));
    events := events + [Begin(1, sub, email)];
    assert Run(events) == State(map[id := row], map[0 := begun, 1 := begun]);
    RunExtends(events, Call(0, id, NoFault));
    events := events + [Call(0, id, NoFault)];
    RunExtends(events, Call(1, id, NoFault));
    events := events + [Call(1, id, NoFault)];
  }

  /**
   * A login that reads by sub before its sibling claims, and by email after, is refused although its
   * own sub is by then a known, enabled user.
   */
  lemma KnownSubCanBeRefused(id: Id, sub: string, email: string) returns (events: seq<Event>)
    ensures 1 in Run(events).logins
    ensures Run(events).logins[1] == Session(sub, email, Done(UnknownPrincipal), 2, false)
    ensures id in Run(events).table && HasSub(Run(events).table[id], sub) && !Run(events).table[id].disabled
  {
    var claimed := Row(true, Some(sub), Some(email), email, false);
    events := TwoLoginsMissBySub(id, sub, email);
    var t := Run(events).table;
    assert HasEmail(t[id], email) && FindByEmail(t, email) == Some(id);
    RunExtends(events, Call(0, id, NoFault));
    events := events + [Call(0, id, NoFault)];
    RunExtends(events, Call(0, id, NoFault));
    events := events + [Call(0, id, NoFault)];
    assert Run(events).table == map[id := claimed];
    assert FindByEmail(Run(events).table, email) == Some(id) by { assert HasEmail(claimed, email); }
    RunExtends(events, Call(1, id, NoFault));
    events := events + [Call(1, id, NoFault)];
  }

  lemma NobodyIsFound(sub: string, email: string) returns (events: seq<Event>)
    ensures Run(events) == State(map[], map[0 := Session(sub, email, Create, 2, false)])
    ensures forall e :: e in events ==> e.Begin? || e.Call?
  {
    var begin, call := Begin(0, sub, email), Call(0, "", NoFault);
    RunExtends([], begin);
    RunExtends([] + [begin], call);
    assert Run([] + [begin] + [call]) == State(map[], map[0 := Session(sub, email, ByEmail, 1, false)]);
    RunExtends([] + [begin] + [call], call);
    events := [] + [begin] + [call] + [call];
  }

  lemma LostInsertRun(sub: string, email: string, newId: Id) returns (events: seq<Event>)
    ensures Run(events) == State(map[], map[0 := Session(sub, email, Done(UnknownPrincipal), 4, true)])
    ensures forall e :: e in events ==> e.Begin? || e.Call?
  {
    var insert, reread := Call(0, newId, LostRequest), Call(0, newId, NoFault);
    events := NobodyIsFound(sub, email);
    RunExtends(events, insert);
    assert Run(events + [insert]) == State(map[], map[0 := Session(sub, email, RereadAfterCreate, 3, true)]);
    RunExtends(events + [insert], reread);
    events := events + [insert] + [reread];
  }

  /** A login whose insert is lost in transit is refused although nobody ever held its email. */
  lemma LostInsertIsRefused(sub: string, email: string, newId: Id) returns (events: seq<Event>)
    ensures Run(events) == State(map[], map[0 := Session(sub, email, Done(UnknownPrincipal), 4, true)])
    ensures forall address :: !EmailHeldDuring(events, 0, address)
  {
    events := LostInsertRun(sub, email, newId);
    forall k: nat | k <= |events| ensures Run(events[..k]).table == map[] {
      LoginsOnlyAddRows(events, k);
    }
  }

  /** Logins among themselves never remove a row. */
  lemma {:induction false} LoginsOnlyAddRows(events: seq<Event>, k: nat)
    requires k <= |events| && forall e :: e in events ==> e.Begin? || e.Call?
    ensures Run(events[..k]).table.Keys <= Run(events).table.Keys
  {
    if k == |events| {
      assert events[..k] == events;
    } else {
      var init := events[..|events| - 1];
      LoginsOnlyAddRows(init, k);
      assert init[..k] == events[..k];
      assert events[|events| - 1] in events;
    }
  }
}
