/**
 * Concurrent first logins: any number of `resolveUserPrincipal` calls interleaving one store call at a
 * time, among invites, cancelled invites and disables, over a table with partial unique indexes.
 */
module Login {
  import opened Common

  type Id = string

  datatype Row = Row(
    isUser: bool, externalId: Option<string>, email: Option<string>, displayName: string, disabled: bool)

  type Table = map<Id, Row>

  // ── The store's calls ──────────────────────────────────────────────────────

  predicate HasSub(row: Row, sub: string) { row.isUser && row.externalId == Some(sub) }
  predicate HasEmail(row: Row, email: string) { row.isUser && row.email == Some(email) }

  /** At most one row of each type per external id. */
  ghost predicate SubIndex(t: Table) {
    forall i, j :: i in t && j in t && i != j && t[i].externalId.Some? ==>
      t[i].externalId != t[j].externalId || t[i].isUser != t[j].isUser
  }

  /** At most one user per email. */
  ghost predicate EmailIndex(t: Table) {
    forall i, j :: i in t && j in t && i != j && t[i].isUser && t[j].isUser && t[i].email.Some? ==>
      t[i].email != t[j].email
  }

  ghost predicate UniqueIndexes(t: Table) {
    SubIndex(t) && EmailIndex(t)
  }

  lemma OneRowPerSub(t: Table, i: Id, j: Id, sub: string)
    requires SubIndex(t) && i in t && j in t && HasSub(t[i], sub) && HasSub(t[j], sub)
    ensures i == j
  {
  }

  ghost function FindBySub(t: Table, sub: string): (found: Option<Id>)
    ensures found.Some? ==> found.value in t && HasSub(t[found.value], sub)
    ensures found.None? ==> forall i :: i in t ==> !HasSub(t[i], sub)
  {
    if exists i :: i in t && HasSub(t[i], sub) then
      var i :| i in t && HasSub(t[i], sub);
      Some(i)
    else None
  }

  ghost function FindByEmail(t: Table, email: string): (found: Option<Id>)
    ensures found.Some? ==> found.value in t && HasEmail(t[found.value], email)
    ensures found.None? ==> forall i :: i in t ==> !HasEmail(t[i], email)
  {
    if exists i :: i in t && HasEmail(t[i], email) then
      var i :| i in t && HasEmail(t[i], email);
      Some(i)
    else None
  }

  predicate EmailTakenByAnother(t: Table, id: Id, email: string) {
    exists i :: i in t && i != id && HasEmail(t[i], email)
  }

  predicate SubTakenByAnother(t: Table, id: Id, sub: string) {
    exists i :: i in t && i != id && HasSub(t[i], sub)
  }

  /** Every write either commits or throws on a unique index (or the primary key) and changes nothing. */
  datatype Write = Committed(table: Table, row: Option<Row>) | Threw

  function RefreshUserLabel(t: Table, id: Id, email: string): Write {
    if id !in t then Committed(t, None)
    else if t[id].isUser && EmailTakenByAnother(t, id, email) then Threw
    else Committed(t[id := t[id].(email := Some(email), displayName := email)], None)
  }

  function ClaimInvitedUser(t: Table, id: Id, sub: string, email: string): Write {
    if id !in t || !t[id].isUser || t[id].externalId.Some? then Committed(t, None)
    else if SubTakenByAnother(t, id, sub) then Threw
    else
      var claimed := t[id].(externalId := Some(sub), displayName := email);
      Committed(t[id := claimed], Some(claimed))
  }

  function CreateUser(t: Table, id: Id, sub: string, email: string): Write {
    if id in t || SubTakenByAnother(t, id, sub) || EmailTakenByAnother(t, id, email) then Threw
    else
      var created := Row(true, Some(sub), Some(email), email, false);
      Committed(t[id := created], Some(created))
  }

  // ── One login ──────────────────────────────────────────────────────────────

  datatype Outcome = Ok(id: Id) | Disabled | UnknownPrincipal | Crashed

  /** Where a login stands: the next store call it will make, or its result. */
  datatype Pc =
    | BySub
    | Refresh(known: Id)
    | ByEmail
    | Claim(invited: Id)
    | RereadAfterClaim
    | Create
    | RereadAfterCreate
    | Done(outcome: Outcome)

  /** `insertLost` records that its insert failed although no row with its sub or email stood in the way. */
  datatype Session = Session(sub: string, email: string, pc: Pc, calls: nat, insertLost: bool)

  /** A store call may fail in transit, before or after it took effect. */
  datatype Fault = NoFault | LostRequest | LostReply

  ghost function AfterReread(t: Table, sub: string): Pc {
    var found := FindBySub(t, sub);
    if found.None? then Done(UnknownPrincipal)
    else if t[found.value].disabled then Done(Disabled)
    else Done(Ok(found.value))
  }

  ghost function AfterBySub(t: Table, sub: string, email: string): Pc {
    var found := FindBySub(t, sub);
    if found.None? then ByEmail
    else
      var row := t[found.value];
      if row.disabled then Done(Disabled)
      else if row.email != Some(email) || row.displayName != email then Refresh(found.value)
      else Done(Ok(found.value))
  }

  ghost function AfterByEmail(t: Table, email: string): Pc {
    var found := FindByEmail(t, email);
    if found.None? then Create
    else
      var row := t[found.value];
      if row.externalId.Some? then Done(UnknownPrincipal)
      else if row.disabled then Done(Disabled)
      else Claim(found.value)
  }

  /** The write a login makes next, if its next call is one. `newId` is the id a new row would get. */
  function NextWrite(t: Table, s: Session, newId: Id): Option<Write> {
    match s.pc
    case Refresh(id) => Some(RefreshUserLabel(t, id, s.email))
    case Claim(id) => Some(ClaimInvitedUser(t, id, s.sub, s.email))
    case Create => Some(CreateUser(t, newId, s.sub, s.email))
    case _ => None
  }

  /** Where a login goes after a call that answered. */
  ghost function AfterCall(t: Table, s: Session, newId: Id): Pc {
    match s.pc
    case BySub => AfterBySub(t, s.sub, s.email)
    case ByEmail => AfterByEmail(t, s.email)
    case RereadAfterClaim => AfterReread(t, s.sub)
    case RereadAfterCreate => AfterReread(t, s.sub)
    case Refresh(id) => Done(Ok(id))
    case Claim(id) =>
      var w := ClaimInvitedUser(t, id, s.sub, s.email);
      if w.Threw? then Done(Crashed) else if w.row.Some? then Done(Ok(id)) else RereadAfterClaim
    case Create =>
      if CreateUser(t, newId, s.sub, s.email).Threw? then RereadAfterCreate else Done(Ok(newId))
    case Done(o) => Done(o)
  }

  /** Where it goes when the call itself failed: refresh and create are caught, the others propagate. */
  function AfterFault(s: Session): Pc {
    match s.pc
    case Refresh(id) => Done(Ok(id))
    case Create => RereadAfterCreate
    case Done(o) => Done(o)
    case _ => Done(Crashed)
  }

  function TableAfter(t: Table, s: Session, newId: Id, fault: Fault): Table {
    var w := NextWrite(t, s, newId);
    if fault.LostRequest? || w.None? || w.value.Threw? then t else w.value.table
  }

  ghost function SessionAfter(t: Table, s: Session, newId: Id, fault: Fault): Session {
    if s.pc.Done? then s
    else s.(pc := if fault.NoFault? then AfterCall(t, s, newId) else AfterFault(s),
            calls := s.calls + 1,
            insertLost := s.insertLost || (s.pc.Create? && (fault.LostRequest? || newId in t)))
  }

  // ── The whole system ───────────────────────────────────────────────────────

  datatype State = State(table: Table, logins: map<nat, Session>)

  datatype Event =
    | Begin(login: nat, sub: string, email: string)
    | Call(login: nat, newId: Id, fault: Fault)
    | Invite(id: Id, email: string)
    | CreateService(id: Id, externalId: Option<string>, displayName: string)
    | SetDisabled(id: Id, disabled: bool)
    | CancelInvite(id: Id)

  ghost function Step(s: State, e: Event): State {
    match e
    case Begin(l, sub, email) =>
      if l in s.logins then s else s.(logins := s.logins[l := Session(sub, email, BySub, 0, false)])
    case Call(l, newId, fault) =>
      if l !in s.logins || s.logins[l].pc.Done? then s
      else State(TableAfter(s.table, s.logins[l], newId, fault),
                 s.logins[l := SessionAfter(s.table, s.logins[l], newId, fault)])
    case Invite(id, email) =>
      if id in s.table || EmailTakenByAnother(s.table, id, email) then s
      else s.(table := s.table[id := Row(true, None, Some(email), email, false)])
    case CreateService(id, externalId, displayName) =>
      if id in s.table || (exists i :: i in s.table && !s.table[i].isUser && externalId.Some? && s.table[i].externalId == externalId) then s
      else s.(table := s.table[id := Row(false, externalId, None, displayName, false)])
    case SetDisabled(id, disabled) =>
      if id !in s.table then s else s.(table := s.table[id := s.table[id].(disabled := disabled)])
    case CancelInvite(id) =>
      if id in s.table && s.table[id].isUser && s.table[id].externalId.None? then s.(table := s.table - {id}) else s
  }

  ghost function Run(events: seq<Event>): State {
    if events == [] then State(map[], map[])
    else Step(Run(events[..|events| - 1]), events[|events| - 1])
  }

  lemma RunExtends(events: seq<Event>, e: Event)
    ensures Run(events + [e]) == Step(Run(events), e)
  {
    assert (events + [e])[..|events + [e]| - 1] == events;
  }

  // ── Safety: the table ──────────────────────────────────────────────────────

  lemma RefreshKeepsIndexes(t: Table, id: Id, email: string)
    requires UniqueIndexes(t) && RefreshUserLabel(t, id, email).Committed?
    ensures UniqueIndexes(RefreshUserLabel(t, id, email).table)
  {
  }

  lemma ClaimKeepsIndexes(t: Table, id: Id, sub: string, email: string)
    requires UniqueIndexes(t) && ClaimInvitedUser(t, id, sub, email).Committed?
    ensures UniqueIndexes(ClaimInvitedUser(t, id, sub, email).table)
  {
  }

  lemma CreateKeepsIndexes(t: Table, id: Id, sub: string, email: string)
    requires UniqueIndexes(t) && CreateUser(t, id, sub, email).Committed?
    ensures UniqueIndexes(CreateUser(t, id, sub, email).table)
  {
  }

  lemma WritesKeepIndexes(t: Table, s: Session, newId: Id, fault: Fault)
    requires UniqueIndexes(t)
    ensures UniqueIndexes(TableAfter(t, s, newId, fault))
  {
    var w := NextWrite(t, s, newId);
    if w.Some? && w.value.Committed? {
      match s.pc
      case Refresh(id) => RefreshKeepsIndexes(t, id, s.email);
      case Claim(id) => ClaimKeepsIndexes(t, id, s.sub, s.email);
      case _ => CreateKeepsIndexes(t, newId, s.sub, s.email);
    }
  }

  /** An external id, once bound, stays on that row, and the row stays. */
  ghost predicate BindingsKept(t: Table, u: Table) {
    forall i :: i in t && t[i].externalId.Some? ==>
      i in u && u[i].externalId == t[i].externalId && u[i].isUser == t[i].isUser
  }

  lemma StepKeepsBindings(s: State, e: Event)
    ensures BindingsKept(s.table, Step(s, e).table)
  {
  }

  // ── Safety: the logins ─────────────────────────────────────────────────────

  /** A login that has settled on a row has it bound to its own sub. */
  ghost predicate Settled(t: Table, s: Session) {
    && (s.pc.Refresh? ==> s.pc.known in t && HasSub(t[s.pc.known], s.sub))
    && (s.pc.Done? && s.pc.outcome.Ok? ==> s.pc.outcome.id in t && HasSub(t[s.pc.outcome.id], s.sub))
  }

  ghost predicate Good(s: State) {
    UniqueIndexes(s.table) && forall l :: l in s.logins ==> Settled(s.table, s.logins[l])
  }

  lemma CallSettles(t: Table, s: Session, newId: Id, fault: Fault)
    requires Settled(t, s) && !s.pc.Done?
    ensures Settled(TableAfter(t, s, newId, fault), SessionAfter(t, s, newId, fault))
  {
  }

  lemma SettledSurvives(t: Table, u: Table, s: Session)
    requires Settled(t, s) && BindingsKept(t, u)
    ensures Settled(u, s)
  {
  }

  lemma StepKeepsIndexes(s: State, e: Event)
    requires UniqueIndexes(s.table)
    ensures UniqueIndexes(Step(s, e).table)
  {
    if e.Call? && e.login in s.logins && !s.logins[e.login].pc.Done? {
      WritesKeepIndexes(s.table, s.logins[e.login], e.newId, e.fault);
    }
  }

  lemma StepKeepsGood(s: State, e: Event)
    requires Good(s)
    ensures Good(Step(s, e))
  {
    var u := Step(s, e);
    StepKeepsBindings(s, e);
    StepKeepsIndexes(s, e);
    if e.Call? && e.login in s.logins && !s.logins[e.login].pc.Done? {
      CallSettles(s.table, s.logins[e.login], e.newId, e.fault);
    }
    forall l | l in u.logins ensures Settled(u.table, u.logins[l]) {
      if l in s.logins && u.logins[l] == s.logins[l] {
        SettledSurvives(s.table, u.table, s.logins[l]);
      }
    }
  }

  lemma {:induction false} AlwaysGood(events: seq<Event>)
    ensures Good(Run(events))
  {
    if events != [] {
      AlwaysGood(events[..|events| - 1]);
      StepKeepsGood(Run(events[..|events| - 1]), events[|events| - 1]);
    }
  }

  // ── Agreement ──────────────────────────────────────────────────────────────

  predicate Succeeded(s: State, l: nat) {
    l in s.logins && s.logins[l].pc.Done? && s.logins[l].pc.outcome.Ok?
  }

  /** In every interleaving two successful logins carry the same principal exactly when they carry the same sub. */
  lemma LoginsAgree(events: seq<Event>, a: nat, b: nat)
    requires Succeeded(Run(events), a) && Succeeded(Run(events), b)
    ensures var x, y := Run(events).logins[a], Run(events).logins[b];
            x.pc.outcome.id == y.pc.outcome.id <==> x.sub == y.sub
  {
    AlwaysGood(events);
  }

  /** A bound row keeps its id and its external id through everything that follows. */
  lemma {:induction false} BoundForever(events: seq<Event>, later: seq<Event>, id: Id)
    requires id in Run(events).table && Run(events).table[id].externalId.Some?
    ensures id in Run(events + later).table
    ensures Run(events + later).table[id].externalId == Run(events).table[id].externalId
    ensures Run(events + later).table[id].isUser == Run(events).table[id].isUser
  {
    if later == [] {
      assert events + later == events;
    } else {
      var init, last := later[..|later| - 1], later[|later| - 1];
      BoundForever(events, init, id);
      RunExtends(events + init, last);
      assert events + later == events + init + [last];
      StepKeepsBindings(Run(events + init), last);
    }
  }

  /** An invited row that a login claims is the principal that sub resolves to from then on. */
  lemma ClaimedInviteKeepsItsId(events: seq<Event>, call: Event, later: seq<Event>, l: nat)
    requires call.Call? && call.login in Run(events).logins && Run(events).logins[call.login].pc.Claim?
    requires Succeeded(Run(events + [call]), call.login)
    requires Succeeded(Run(events + [call] + later), l)
    requires Run(events + [call] + later).logins[l].sub == Run(events).logins[call.login].sub
    ensures Run(events + [call] + later).logins[l].pc.outcome.id == Run(events).logins[call.login].pc.invited
  {
    var before := Run(events);
    assert (events + [call])[..|events + [call]| - 1] == events;
    var id := before.logins[call.login].pc.invited;
    var after := Run(events + [call]);
    assert after.logins[call.login].pc == Done(Ok(id));
    AlwaysGood(events + [call]);
    BoundForever(events + [call], later, id);
    AlwaysGood(events + [call] + later);
    var end := Run(events + [call] + later);
    OneRowPerSub(end.table, id, end.logins[l].pc.outcome.id, before.logins[call.login].sub);
  }
}
