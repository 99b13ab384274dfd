/**
 * The access-token contract between the Worker, which builds claims, and the SDK, which reads them
 * back from a payload whose shape it does not trust.
 */
module Claims {
  import opened Common
  import opened Permissions
  import opened Json
  import Resolve

  datatype PrincipalType = User | Service

  /** `ptype` is present only when the subject is a principal; `actor` is the claim named `label`. */
  datatype AccessClaims = AccessClaims(
    iss: string, aud: string, sub: string, iat: int, exp: int,
    perms: seq<Entry>, ptype: Option<PrincipalType>, actor: Option<string>)

  datatype AccessTokenParams = AccessTokenParams(
    iss: string, app: string, subject: string, principalType: Option<PrincipalType>, actor: Option<string>,
    permissions: seq<Entry>, issuedAt: int, expiresAt: int)

  function BuildAccessClaims(p: AccessTokenParams): AccessClaims {
    AccessClaims(p.iss, p.app, p.subject, p.issuedAt, p.expiresAt, p.permissions, p.principalType, p.actor)
  }

  // ── The payload ────────────────────────────────────────────────────────────

  function ScopeJson(s: Option<Scope>): Value {
    if s.None? then Null else Object(map["type" := Text(s.value.dimension), "value" := Text(s.value.value)])
  }

  function EntryJson(e: Entry): Value {
    Object(map["action" := Text(e.action), "scope" := ScopeJson(e.scope), "source" := Text(Resolve.SourceText(e.source))])
  }

  function EntriesJson(es: seq<Entry>): seq<Value> {
    seq(|es|, i requires 0 <= i < |es| => EntryJson(es[i]))
  }

  function PtypeText(t: PrincipalType): string {
    match t case User => "user" case Service => "service"
  }

  /** What signing puts on the wire; an undefined `ptype` is not written. */
  function Payload(c: AccessClaims): Value {
    var members := map[
      "iss" := Text(c.iss), "aud" := Text(c.aud), "sub" := Text(c.sub), "iat" := Number(c.iat), "exp" := Number(c.exp),
      "perms" := Array(EntriesJson(c.perms)), "label" := if c.actor.Some? then Text(c.actor.value) else Null];
    Object(if c.ptype.Some? then members["ptype" := Text(PtypeText(c.ptype.value))] else members)
  }

  // ── The structural parsers: `None` for a malformed value ───────────────────

  function ParseOptionalPtype(v: Option<Value>): Option<Option<PrincipalType>> {
    if v.None? || v.value.Null? then Some(None)
    else if v.value == Text("user") then Some(Some(User))
    else if v.value == Text("service") then Some(Some(Service))
    else None
  }

  function ParseNullableString(v: Option<Value>): Option<Option<string>> {
    if v.None? || v.value.Null? then Some(None)
    else if v.value.Text? then Some(Some(v.value.text))
    else None
  }

  /** An absent scope is malformed; only an explicit null is global. */
  function ParseScope(v: Option<Value>): Option<Option<Scope>> {
    if v.None? then None
    else if v.value.Null? then Some(None)
    else
      var dimension, value := StringField(v.value, "type"), StringField(v.value, "value");
      if dimension.None? || value.None? then None else Some(Some(Scope(dimension.value, value.value)))
  }

  function ParseSource(v: Option<Value>): Option<Source> {
    if v.None? || !v.value.Text? then None
    else if v.value.text == "grant" then Some(FromGrant)
    else if v.value.text == "bootstrap" then Some(FromBootstrap)
    else if "group:" <= v.value.text then Some(FromGroup(v.value.text[6..]))
    else None
  }

  function ParseEntry(item: Value): Option<Entry> {
    var action := StringField(item, "action");
    var scope := ParseScope(Prop(item, "scope"));
    var source := ParseSource(Prop(item, "source"));
    if action.None? || scope.None? || source.None? then None
    else Some(Entry(action.value, scope.value, source.value))
  }

  /** One malformed entry spoils the whole list. */
  predicate AllEntriesParse(items: seq<Value>) {
    forall i :: 0 <= i < |items| ==> ParseEntry(items[i]).Some?
  }

  function ParsedEntries(items: seq<Value>): seq<Entry>
    requires AllEntriesParse(items)
  {
    seq(|items|, i requires 0 <= i < |items| => ParseEntry(items[i]).value)
  }

  function ParsePermissionEntries(v: Option<Value>): Option<seq<Entry>> {
    if v.None? || !v.value.Array? || !AllEntriesParse(v.value.items) then None
    else Some(ParsedEntries(v.value.items))
  }

  method ReadPermissionEntries(v: Option<Value>) returns (entries: Option<seq<Entry>>)
    ensures entries == ParsePermissionEntries(v)
    ensures forall es :: entries == Some(es) <==> v.Some? && ListSays(v.value, es)
  {
    forall es {
      ListParsesIff(v, es);
    }
    if v.None? || !v.value.Array? {
      return None;
    }
    var items := v.value.items;
    var out: seq<Entry> := [];
    for i := 0 to |items|
      invariant |out| == i
      invariant forall k :: 0 <= k < i ==> ParseEntry(items[k]) == Some(out[k])
    {
      var entry := ParseEntry(items[i]);
      if entry.None? {
        return None;
      }
      out := out + [entry.value];
    }
    assert AllEntriesParse(items) && out == ParsedEntries(items);
    return Some(out);
  }

  function ParseAccessClaims(payload: Value): Option<AccessClaims> {
    var iss, aud, sub := StringField(payload, "iss"), StringField(payload, "aud"), StringField(payload, "sub");
    var iat, exp := NumberField(payload, "iat"), NumberField(payload, "exp");
    var perms := ParsePermissionEntries(Prop(payload, "perms"));
    var actor := ParseNullableString(Prop(payload, "label"));
    var ptype := ParseOptionalPtype(Prop(payload, "ptype"));
    if iss.None? || aud.None? || sub.None? || iat.None? || exp.None? then None
    else if perms.None? || actor.None? || ptype.None? then None
    else Some(AccessClaims(iss.value, aud.value, sub.value, iat.value, exp.value, perms.value, ptype.value, actor.value))
  }

  // ── What a payload says ────────────────────────────────────────────────────

  ghost predicate MemberIs(v: Value, key: string, wanted: Value) {
    v.Object? && key in v.members && v.members[key] == wanted
  }

  ghost predicate IsMissing(v: Value, key: string) {
    v.Object? && key in v.members ==> v.members[key] == Null
  }

  /** The scope has to be there: null for a global entry, else a coordinate. */
  ghost predicate ScopeSays(item: Value, scope: Option<Scope>) {
    match scope
    case None => MemberIs(item, "scope", Null)
    case Some(s) => item.Object? && "scope" in item.members
                    && MemberIs(item.members["scope"], "type", Text(s.dimension))
                    && MemberIs(item.members["scope"], "value", Text(s.value))
  }

  ghost predicate EntrySays(item: Value, e: Entry) {
    && MemberIs(item, "action", Text(e.action))
    && ScopeSays(item, e.scope)
    && match e.source
       case FromGrant => MemberIs(item, "source", Text("grant"))
       case FromBootstrap => MemberIs(item, "source", Text("bootstrap"))
       case FromGroup(ref) => MemberIs(item, "source", Text("group:" + ref))
  }

  ghost predicate ListSays(v: Value, es: seq<Entry>) {
    v.Array? && |v.items| == |es| && forall i :: 0 <= i < |es| ==> EntrySays(v.items[i], es[i])
  }

  ghost predicate PayloadSays(v: Value, c: AccessClaims) {
    && MemberIs(v, "iss", Text(c.iss)) && MemberIs(v, "aud", Text(c.aud)) && MemberIs(v, "sub", Text(c.sub))
    && MemberIs(v, "iat", Number(c.iat)) && MemberIs(v, "exp", Number(c.exp))
    && v.Object? && "perms" in v.members && ListSays(v.members["perms"], c.perms)
    && (if c.actor.Some? then MemberIs(v, "label", Text(c.actor.value)) else IsMissing(v, "label"))
    && match c.ptype
       case None => IsMissing(v, "ptype")
       case Some(User) => MemberIs(v, "ptype", Text("user"))
       case Some(Service) => MemberIs(v, "ptype", Text("service"))
  }

  lemma SourceParsesIff(v: Option<Value>, s: Source)
    ensures ParseSource(v) == Some(s) <==> v == Some(Text(Resolve.SourceText(s)))
  {
    SourceRoundTrip(s);
    if ParseSource(v) == Some(s) && s.FromGroup? {
      assert v.value.text == "group:" + v.value.text[6..];
    }
  }

  lemma EntryParsesIff(item: Value, e: Entry)
    ensures ParseEntry(item) == Some(e) <==> EntrySays(item, e)
  {
    SourceParsesIff(Prop(item, "source"), e.source);
  }

  lemma ListParsesIff(v: Option<Value>, es: seq<Entry>)
    ensures ParsePermissionEntries(v) == Some(es) <==> v.Some? && ListSays(v.value, es)
  {
    if v.Some? && v.value.Array? && |v.value.items| == |es| {
      forall i | 0 <= i < |es| ensures ParseEntry(v.value.items[i]) == Some(es[i]) <==> EntrySays(v.value.items[i], es[i]) {
        EntryParsesIff(v.value.items[i], es[i]);
      }
      if ListSays(v.value, es) {
        assert ParsedEntries(v.value.items) == es;
      }
    }
  }

  /** For every payload and every claim set: the reader returns exactly what the payload says, or nothing. */
  lemma PayloadParsesIff(payload: Value, c: AccessClaims)
    ensures ParseAccessClaims(payload) == Some(c) <==> PayloadSays(payload, c)
  {
    ListParsesIff(Prop(payload, "perms"), c.perms);
  }

  // ── Round trip ─────────────────────────────────────────────────────────────

  lemma SourceRoundTrip(s: Source)
    ensures ParseSource(Some(Text(Resolve.SourceText(s)))) == Some(s)
  {
    if s.FromGroup? {
      var text := "group:" + s.groupRef;
      assert text[1] == 'r' && "grant"[1] == 'r' && text[2] == 'o' && "grant"[2] == 'a';
      assert text[0] == 'g' && "bootstrap"[0] == 'b';
      assert text[..6] == "group:" && text[6..] == s.groupRef;
    } else {
      assert "grant"[0] == 'g' && "bootstrap"[0] == 'b';
    }
  }

  lemma EntryRoundTrip(e: Entry)
    ensures ParseEntry(EntryJson(e)) == Some(e)
  {
    SourceRoundTrip(e.source);
  }

  lemma EntriesRoundTrip(es: seq<Entry>)
    ensures ParsePermissionEntries(Some(Array(EntriesJson(es)))) == Some(es)
  {
    forall i | 0 <= i < |es| ensures ParseEntry(EntriesJson(es)[i]) == Some(es[i]) {
      EntryRoundTrip(es[i]);
    }
    assert ParsedEntries(EntriesJson(es)) == es;
  }

  /** For every claim set, what the SDK reads is what the Worker signed. */
  lemma PayloadReadsBack(c: AccessClaims)
    ensures ParseAccessClaims(Payload(c)) == Some(c)
  {
    EntriesRoundTrip(c.perms);
  }

  /** So every decision on the SDK side is the decision on the Worker's own list. */
  lemma BothSidesDecideAlike(p: AccessTokenParams, action: string, scope: Option<Scope>)
    ensures ParseAccessClaims(Payload(BuildAccessClaims(p))).Some?
    ensures var read := ParseAccessClaims(Payload(BuildAccessClaims(p))).value;
            && (Permits(read.perms, action, scope) <==> Permits(p.permissions, action, scope))
            && read.perms == p.permissions && read.iss == p.iss && read.aud == p.app && read.sub == p.subject
            && read.iat == p.issuedAt && read.exp == p.expiresAt && read.ptype == p.principalType && read.actor == p.actor
  {
    PayloadReadsBack(BuildAccessClaims(p));
  }

  /** Fail closed: a payload that parses has every mandatory claim, and reads as itself ever after. */
  lemma ParsedClaimsAreStable(payload: Value)
    requires ParseAccessClaims(payload).Some?
    ensures ParseAccessClaims(Payload(ParseAccessClaims(payload).value)) == ParseAccessClaims(payload)
    ensures forall key :: key in {"iss", "aud", "sub", "iat", "exp", "perms"} ==> Prop(payload, key).Some?
  {
    PayloadReadsBack(ParseAccessClaims(payload).value);
  }
}
