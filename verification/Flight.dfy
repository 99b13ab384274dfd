/**
 * The OIDC flight carried in a cookie between the login and the callback: JSON text, then base64url.
 * Reading covers objects of string members written without insignificant white space.
 */
module Flight {
  import opened Common
  import Base64
  import Json

  datatype Flight = Flight(state: string, verifier: string, redirect: string)

  // ── JSON text ──────────────────────────────────────────────────────────────

  function QuoteChar(c: char): string {
    if c == '"' then ['\\', '"']
    else if c == '\\' then ['\\', '\\']
    else if c == '\n' then ['\\', 'n']
    else if c == '\r' then ['\\', 'r']
    else if c == '\t' then ['\\', 't']
    else if c as int == 8 then ['\\', 'b']
    else if c as int == 12 then ['\\', 'f']
    else if c < ' ' then ['\\', 'u', '0', '0', HEX_DIGITS[c as int / 16], HEX_DIGITS[c as int % 16]]
    else [c]
  }

  function QuoteChars(s: string): string {
    if s == "" then "" else QuoteChar(s[0]) + QuoteChars(s[1..])
  }

  function Quote(s: string): string {
    ['"'] + (QuoteChars(s) + ['"'])
  }

  function Member(key: string, value: string): string {
    Quote(key) + [':'] + Quote(value)
  }

  /** An object of three string members. */
  function Braced(first: string, second: string, third: string): string {
    ['{'] + (first + ([','] + (second + ([','] + (third + ['}'])))))
  }

  function Stringify(f: Flight): string {
    Braced(Member("state", f.state), Member("verifier", f.verifier), Member("redirect", f.redirect))
  }

  function HexValue(c: char): Option<nat> {
    if '0' <= c <= '9' then Some(c as int - '0' as int)
    else if 'a' <= c <= 'f' then Some(10 + (c as int - 'a' as int))
    else if 'A' <= c <= 'F' then Some(10 + (c as int - 'A' as int))
    else None
  }

  /** A code unit from four hex digits; half of a surrogate pair is outside this reader. */
  function CodeUnit(t: string): Option<char>
    requires |t| == 4
  {
    var a, b, c, d := HexValue(t[0]), HexValue(t[1]), HexValue(t[2]), HexValue(t[3]);
    if a.None? || b.None? || c.None? || d.None? then None
    else
      var n := ((a.value * 16 + b.value) * 16 + c.value) * 16 + d.value;
      if n < 0xD800 || 0xE000 <= n < 0x10000 then Some(n as char) else None
  }

  /** One character of a string literal and how much text it took. */
  function ReadChar(t: string): (r: Option<(char, nat)>)
    requires t != ""
    ensures r.Some? ==> 0 < r.value.1 <= |t|
  {
    if t[0] == '\\' then
      if |t| < 2 then None
      else if t[1] == '"' || t[1] == '\\' || t[1] == '/' then Some((t[1], 2))
      else if t[1] == 'n' then Some(('\n', 2))
      else if t[1] == 'r' then Some(('\r', 2))
      else if t[1] == 't' then Some(('\t', 2))
      else if t[1] == 'b' then Some((8 as char, 2))
      else if t[1] == 'f' then Some((12 as char, 2))
      else if t[1] == 'u' && |t| >= 6 then
        var unit := CodeUnit(t[2..6]);
        if unit.None? then None else Some((unit.value, 6))
      else None
    else if t[0] < ' ' then None
    else Some((t[0], 1))
  }

  /** The rest of a string literal after its opening quote, and what follows the closing one. */
  function ReadChars(t: string): Option<(string, string)> {
    if t == "" then None
    else if t[0] == '"' then Some(("", t[1..]))
    else
      var head := ReadChar(t);
      if head.None? then None
      else
        var tail := ReadChars(t[head.value.1..]);
        if tail.None? then None else Some(([head.value.0] + tail.value.0, tail.value.1))
  }

  function ReadString(t: string): Option<(string, string)> {
    if t == "" || t[0] != '"' then None else ReadChars(t[1..])
  }

  /** `"key":"value"` and what follows it. */
  function ReadMember(t: string): Option<(string, string, string)> {
    var key := ReadString(t);
    if key.None? || key.value.1 == "" || key.value.1[0] != ':' then None
    else
      var value := ReadString(key.value.1[1..]);
      if value.None? then None else Some((key.value.0, value.value.0, value.value.1))
  }

  /** Members up to the closing brace; a repeated key keeps its last value. */
  function ReadMembers(t: string, sofar: map<string, Json.Value>): Option<Json.Value>
    decreases |t|
  {
    var m := ReadMember(t);
    if m.None? then None
    else
      var (key, value, rest) := m.value;
      var members := sofar[key := Json.Text(value)];
      if rest == ['}'] then Some(Json.Object(members))
      else if rest != "" && rest[0] == ',' && |rest| <= |t| then ReadMembers(rest[1..], members)
      else None
  }

  function Parse(t: string): Option<Json.Value> {
    if t == "" || t[0] != '{' then None else ReadMembers(t[1..], map[])
  }

  // ── The cookie ─────────────────────────────────────────────────────────────

  /** `None`: `btoa` threw. */
  function EncodeFlight(f: Flight): Option<string> {
    var encoded := Base64.Btoa(Stringify(f));
    if encoded.None? then None else Some(Base64.ToUrl(encoded.value))
  }

  function FlightOf(json: Json.Value): Option<Flight> {
    var state, verifier := Json.StringField(json, "state"), Json.StringField(json, "verifier");
    var redirect := Json.StringField(json, "redirect");
    if state.None? || verifier.None? || redirect.None? then None
    else Some(Flight(state.value, verifier.value, redirect.value))
  }

  function DecodeFlight(raw: Option<string>): Option<Flight> {
    if raw.None? || raw.value == "" then None
    else
      var text := Base64.Atob(Base64.FromUrl(raw.value));
      if text.None? then None
      else
        var json := Parse(text.value);
        if json.None? then None else FlightOf(json.value)
  }

  ghost predicate IsTextMember(json: Json.Value, key: string, text: string) {
    json.Object? && key in json.members && json.members[key] == Json.Text(text)
  }

  ghost predicate Names(json: Json.Value, f: Flight) {
    && IsTextMember(json, "state", f.state) && IsTextMember(json, "verifier", f.verifier)
    && IsTextMember(json, "redirect", f.redirect)
  }

  lemma FlightOfIff(json: Json.Value, f: Flight)
    ensures FlightOf(json) == Some(f) <==> Names(json, f)
  {
  }

  /** A cookie decodes to exactly the flight its JSON names in full, and to nothing if any part is missing or malformed. */
  lemma DecodesIff(raw: Option<string>, f: Flight)
    ensures DecodeFlight(raw) == Some(f) <==>
              (raw.Some? && raw.value != ""
               && exists text, json :: Base64.Atob(Base64.FromUrl(raw.value)) == Some(text) && Parse(text) == Some(json)
                    && Names(json, f))
  {
    if raw.Some? && raw.value != "" && Base64.Atob(Base64.FromUrl(raw.value)).Some? {
      var json := Parse(Base64.Atob(Base64.FromUrl(raw.value)).value);
      if json.Some? {
        FlightOfIff(json.value, f);
      }
    }
  }

  // ── Round trip ─────────────────────────────────────────────────────────────

  lemma HexDigitReadsBack(n: nat)
    requires n < 16
    ensures HexValue(HEX_DIGITS[n]) == Some(n)
  {
  }

  lemma QuotedCharReadsBack(c: char, rest: string)
    ensures var t := QuoteChar(c) + rest;
            && t != "" && t[0] != '"'
            && ReadChar(t) == Some((c, |QuoteChar(c)|))
  {
    var t := QuoteChar(c) + rest;
    if |QuoteChar(c)| == 6 {
      HexDigitReadsBack(0);
      HexDigitReadsBack(c as int / 16);
      HexDigitReadsBack(c as int % 16);
      assert t[2..6] == ['0', '0', HEX_DIGITS[c as int / 16], HEX_DIGITS[c as int % 16]];
      assert CodeUnit(t[2..6]) == Some(c);
    }
  }

  lemma ReadCharsStep(t: string, c: char, n: nat)
    requires t != "" && t[0] != '"' && ReadChar(t) == Some((c, n)) && 0 < n <= |t|
    requires ReadChars(t[n..]).Some?
    ensures ReadChars(t) == Some(([c] + ReadChars(t[n..]).value.0, ReadChars(t[n..]).value.1))
  {
  }

  lemma ReadCharsAfter(c: char, tail: string, s: string, rest: string)
    requires ReadChars(tail) == Some((s, rest))
    ensures ReadChars(QuoteChar(c) + tail) == Some(([c] + s, rest))
  {
    QuotedCharReadsBack(c, tail);
    assert (QuoteChar(c) + tail)[|QuoteChar(c)|..] == tail;
    ReadCharsStep(QuoteChar(c) + tail, c, |QuoteChar(c)|);
  }

  lemma {:induction false} QuotedCharsReadBack(s: string, end: string)
    requires end != "" && end[0] == '"'
    ensures ReadChars(QuoteChars(s) + end) == Some((s, end[1..]))
  {
    if s == "" {
      assert QuoteChars(s) + end == end;
    } else {
      QuotedCharsReadBack(s[1..], end);
      ReadCharsAfter(s[0], QuoteChars(s[1..]) + end, s[1..], end[1..]);
      Associative(QuoteChar(s[0]), QuoteChars(s[1..]), end);
      assert s == [s[0]] + s[1..];
    }
  }

  lemma ReadStringIsReadChars(inside: string)
    ensures ReadString(['"'] + inside) == ReadChars(inside)
  {
    assert (['"'] + inside)[1..] == inside;
  }

  lemma QuoteReadsBack(s: string, rest: string)
    ensures ReadString(Quote(s) + rest) == Some((s, rest))
  {
    var end := ['"'] + rest;
    QuotedCharsReadBack(s, end);
    assert end[1..] == rest;
    ReadStringIsReadChars(QuoteChars(s) + end);
    Associative(['"'], QuoteChars(s) + ['"'], rest);
    Associative(QuoteChars(s), ['"'], rest);
  }

  lemma ReadMemberParts(t: string, key: string, after: string, value: string, rest: string)
    requires ReadString(t) == Some((key, after)) && after != "" && after[0] == ':'
    requires ReadString(after[1..]) == Some((value, rest))
    ensures ReadMember(t) == Some((key, value, rest))
  {
  }

  lemma MemberReadsBack(key: string, value: string, rest: string)
    ensures ReadMember(Member(key, value) + rest) == Some((key, value, rest))
  {
    var after := [':'] + (Quote(value) + rest);
    assert Member(key, value) + rest == Quote(key) + after;
    QuoteReadsBack(key, after);
    QuoteReadsBack(value, rest);
    assert after[1..] == Quote(value) + rest;
    ReadMemberParts(Member(key, value) + rest, key, after, value, rest);
  }

  lemma MemberThenMore(key: string, value: string, rest: string, sofar: map<string, Json.Value>)
    ensures ReadMembers(Member(key, value) + ([','] + rest), sofar) == ReadMembers(rest, sofar[key := Json.Text(value)])
  {
    MemberReadsBack(key, value, [','] + rest);
    assert ([','] + rest)[1..] == rest;
    assert [','] + rest != ['}'] by { assert ([','] + rest)[0] == ','; }
  }

  lemma LastMember(key: string, value: string, sofar: map<string, Json.Value>)
    ensures ReadMembers(Member(key, value) + ['}'], sofar) == Some(Json.Object(sofar[key := Json.Text(value)]))
  {
    MemberReadsBack(key, value, ['}']);
  }

  function FlightJson(f: Flight): Json.Value {
    Json.Object(map["state" := Json.Text(f.state), "verifier" := Json.Text(f.verifier), "redirect" := Json.Text(f.redirect)])
  }

  lemma StringifyReadsBack(f: Flight)
    ensures Parse(Stringify(f)) == Some(FlightJson(f))
  {
    var third := Member("redirect", f.redirect) + ['}'];
    var second := Member("verifier", f.verifier) + ([','] + third);
    var first := Member("state", f.state) + ([','] + second);
    assert Stringify(f)[1..] == first;
    var a: map<string, Json.Value> := map["state" := Json.Text(f.state)];
    assert map[]["state" := Json.Text(f.state)] == a;
    var b := a["verifier" := Json.Text(f.verifier)];
    MemberThenMore("state", f.state, second, map[]);
    MemberThenMore("verifier", f.verifier, third, a);
    LastMember("redirect", f.redirect, b);
  }

  lemma {:induction false} QuotedLatin1(s: string)
    ensures Base64.IsLatin1(QuoteChars(s)) <==> Base64.IsLatin1(s)
  {
    if s != "" {
      QuotedLatin1(s[1..]);
      QuotedCharLatin1(s[0]);
      assert s == [s[0]] + s[1..];
      Latin1Concat([s[0]], s[1..]);
      Latin1Concat(QuoteChar(s[0]), QuoteChars(s[1..]));
    }
  }

  lemma Latin1Concat(a: string, b: string)
    ensures Base64.IsLatin1(a + b) <==> Base64.IsLatin1(a) && Base64.IsLatin1(b)
  {
    if Base64.IsLatin1(a + b) {
      assert forall i :: 0 <= i < |a| ==> (a + b)[i] == a[i];
      assert forall i :: 0 <= i < |b| ==> (a + b)[|a| + i] == b[i];
    }
  }

  lemma QuotedCharLatin1(c: char)
    ensures Base64.IsLatin1(QuoteChar(c)) <==> Base64.IsLatin1([c])
  {
    assert [c][0] == c;
  }

  predicate OneByteFields(f: Flight) {
    Base64.IsLatin1(f.state) && Base64.IsLatin1(f.verifier) && Base64.IsLatin1(f.redirect)
  }

  lemma MemberLatin1(key: string, value: string)
    requires Base64.IsLatin1(key)
    ensures Base64.IsLatin1(Member(key, value)) <==> Base64.IsLatin1(value)
  {
    QuoteLatin1(key);
    QuoteLatin1(value);
    Latin1Concat(Quote(key) + [':'], Quote(value));
    Latin1Concat(Quote(key), [':']);
  }

  lemma QuoteLatin1(s: string)
    ensures Base64.IsLatin1(Quote(s)) <==> Base64.IsLatin1(s)
  {
    QuotedLatin1(s);
    Latin1Concat(QuoteChars(s), ['"']);
    Latin1Concat(['"'], QuoteChars(s) + ['"']);
  }

  lemma BracedLatin1(a: string, b: string, c: string)
    ensures Base64.IsLatin1(Braced(a, b, c)) <==> Base64.IsLatin1(a) && Base64.IsLatin1(b) && Base64.IsLatin1(c)
  {
    var third := c + ['}'];
    var second := b + ([','] + third);
    Latin1Concat(c, ['}']);
    Latin1Concat([','], third);
    Latin1Concat(b, [','] + third);
    Latin1Concat([','], second);
    Latin1Concat(a, [','] + second);
    Latin1Concat(['{'], a + ([','] + second));
  }

  lemma MembersLatin1(p: string, q: string, r: string, f: Flight)
    requires Base64.IsLatin1(p) && Base64.IsLatin1(q) && Base64.IsLatin1(r)
    ensures Base64.IsLatin1(Braced(Member(p, f.state), Member(q, f.verifier), Member(r, f.redirect))) <==> OneByteFields(f)
  {
    MemberLatin1(p, f.state);
    MemberLatin1(q, f.verifier);
    MemberLatin1(r, f.redirect);
    BracedLatin1(Member(p, f.state), Member(q, f.verifier), Member(r, f.redirect));
  }

  lemma StringifyLatin1(f: Flight)
    ensures Base64.IsLatin1(Stringify(f)) <==> OneByteFields(f)
  {
    MembersLatin1("state", "verifier", "redirect", f);
  }

  lemma EncodedIsNotEmpty(text: string)
    requires text != "" && Base64.IsLatin1(text)
    ensures Base64.ToUrl(Base64.Encode(text)) != ""
  {
    Base64.UrlRoundTrip(text);
    assert Base64.FromUrl("") == "";
  }

  lemma EncodeFlightSucceedsIff(f: Flight)
    ensures EncodeFlight(f).Some? <==> OneByteFields(f)
  {
    StringifyLatin1(f);
  }

  lemma DecodeByParts(raw: string, text: string, f: Flight)
    requires raw != "" && Base64.Atob(Base64.FromUrl(raw)) == Some(text) && Parse(text) == Some(FlightJson(f))
    ensures DecodeFlight(Some(raw)) == Some(f)
  {
  }

  /** A flight is encoded exactly when its fields are one-byte characters, and then it comes back whole. */
  lemma FlightRoundTrip(f: Flight)
    ensures EncodeFlight(f).Some? <==> OneByteFields(f)
    ensures EncodeFlight(f).Some? ==> DecodeFlight(EncodeFlight(f)) == Some(f)
    ensures EncodeFlight(f).Some? ==> forall c :: c in EncodeFlight(f).value ==> c != '+' && c != '/' && c != '='
  {
    EncodeFlightSucceedsIff(f);
    if EncodeFlight(f).Some? {
      StringifyReadsBack(f);
      EncodedTextReadsBack(Stringify(f), f);
    }
  }

  lemma EncodedTextReadsBack(text: string, f: Flight)
    requires Base64.IsLatin1(text) && Parse(text) == Some(FlightJson(f))
    ensures var raw := Base64.ToUrl(Base64.Encode(text));
            && DecodeFlight(Some(raw)) == Some(f)
            && forall c :: c in raw ==> c != '+' && c != '/' && c != '='
  {
    Base64.UrlRoundTrip(text);
    Base64.UrlSpellingIsSafe(Base64.Encode(text));
    EncodedIsNotEmpty(text);
    DecodeByParts(Base64.ToUrl(Base64.Encode(text)), text, f);
  }
}
