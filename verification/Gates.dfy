/**
 * The per-path gates: an ordered rule list, walked until a rule decides. What a bearer or session
 * attempt yields is a parameter here; `SessionAuth` says what those attempts do.
 */
module Gates {
  import opened Common
  import Glob

  datatype Transport = Header | Query | Cookie
  datatype Location = Location(transport: Transport, name: string)

  datatype Kind = Public | Service(credential: Option<Location>) | Human
  datatype Rule = Rule(path: string, kind: Kind)

  datatype SessionAttempt = SignedIn(subject: string) | Missed(reason: string)

  datatype Result =
    | Anonymous
    | Bearer(raw: string)
    | Signed(subject: string)
    | LoginNeeded(reason: string, loginUrl: string)
    | NoCredential
    | NoRule

  /**
   * One request: its path, the credential found at a declared location (`None`: the Authorization
   * header), and what the n-th session attempt made for it would yield.
   */
  datatype Request = Request(
    path: string, present: Option<Location> -> Option<string>, attempt: nat -> SessionAttempt, loginUrl: string)

  function Applicable(rules: seq<Rule>, path: string): seq<Rule> {
    if rules == [] then []
    else
      var init := Applicable(rules[..|rules| - 1], path);
      var last := rules[|rules| - 1];
      if Glob.PathMatches(last.path, path) then init + [last] else init
  }

  /** How many session attempts the walk makes over these rules if none of them decides. */
  function Attempts(rules: seq<Rule>): nat {
    if rules == [] then 0 else Attempts(rules[..|rules| - 1]) + if rules[|rules| - 1].kind.Human? then 1 else 0
  }

  /** Rule `j` settles the request, whatever came before it failed to. */
  predicate Decides(req: Request, rules: seq<Rule>, j: nat)
    requires j < |rules|
  {
    match rules[j].kind
    case Public => true
    case Service(location) => req.present(location).Some?
    case Human => req.attempt(Attempts(rules[..j])).SignedIn?
  }

  function Verdict(req: Request, rules: seq<Rule>, j: nat): Result
    requires j < |rules| && Decides(req, rules, j)
  {
    match rules[j].kind
    case Public => Anonymous
    case Service(location) => Bearer(req.present(location).value)
    case Human => Signed(req.attempt(Attempts(rules[..j])).subject)
  }

  /** The first deciding rule. */
  ghost predicate IsFirst(req: Request, rules: seq<Rule>, j: nat) {
    j < |rules| && Decides(req, rules, j) && forall i :: 0 <= i < j ==> !Decides(req, rules, i)
  }

  /** What the gates promise for the rules that match the path. */
  ghost predicate IsOutcome(req: Request, rules: seq<Rule>, result: Result) {
    if exists j: nat :: IsFirst(req, rules, j) then exists j: nat :: IsFirst(req, rules, j) && result == Verdict(req, rules, j)
    else if Attempts(rules) > 0 then
      req.attempt(Attempts(rules) - 1).Missed?
      && result == LoginNeeded(req.attempt(Attempts(rules) - 1).reason, req.loginUrl)
    else if rules != [] then result == NoCredential
    else result == NoRule
  }

  /** When some rule is first to decide, its verdict is the one outcome. */
  lemma FirstSettlesIt(req: Request, rules: seq<Rule>, j: nat, result: Result)
    requires IsFirst(req, rules, j)
    ensures IsOutcome(req, rules, result) <==> result == Verdict(req, rules, j)
  {
    assert forall i: nat :: IsFirst(req, rules, i) ==> i == j;
  }

  method SelectApplicable(rules: seq<Rule>, path: string) returns (applicable: seq<Rule>)
    ensures applicable == Applicable(rules, path)
  {
    applicable := [];
    for i := 0 to |rules|
      invariant applicable == Applicable(rules[..i], path)
    {
      assert rules[..i + 1][..i] == rules[..i];
      if Glob.PathMatches(rules[i].path, path) {
        applicable := applicable + [rules[i]];
      }
    }
    assert rules[..|rules|] == rules;
  }

  method Authenticate(rules: seq<Rule>, req: Request) returns (result: Result)
    ensures IsOutcome(req, Applicable(rules, req.path), result)
  {
    var applicable := SelectApplicable(rules, req.path);
    if |applicable| == 0 {
      return NoRule;
    }
    result := Walk(applicable, req);
  }

  method Walk(applicable: seq<Rule>, req: Request) returns (result: Result)
    requires applicable != []
    ensures IsOutcome(req, applicable, result)
  {
    var humanMiss: Option<string> := None;
    var attempts: nat := 0;
    for i := 0 to |applicable|
      invariant forall k :: 0 <= k < i ==> !Decides(req, applicable, k)
      invariant attempts == Attempts(applicable[..i])
      invariant humanMiss.Some? <==> attempts > 0
      invariant humanMiss.Some? ==> req.attempt(attempts - 1) == Missed(humanMiss.value)
    {
      assert applicable[..i + 1][..i] == applicable[..i];
      match applicable[i].kind {
        case Public =>
          FirstSettlesIt(req, applicable, i, Anonymous);
          return Anonymous;
        case Service(location) =>
          var raw := req.present(location);
          if raw.None? {
            continue;
          }
          FirstSettlesIt(req, applicable, i, Bearer(raw.value));
          return Bearer(raw.value);
        case Human =>
          var attempt := req.attempt(attempts);
          if attempt.SignedIn? {
            FirstSettlesIt(req, applicable, i, Signed(attempt.subject));
            return Signed(attempt.subject);
          }
          humanMiss := Some(attempt.reason);
          attempts := attempts + 1;
      }
    }
    assert applicable[..|applicable|] == applicable;
    return if humanMiss.Some? then LoginNeeded(humanMiss.value, req.loginUrl) else NoCredential;
  }

  // ── What does and does not matter ──────────────────────────────────────────

  ghost predicate SomeDecides(req: Request, rules: seq<Rule>) {
    exists j: nat :: j < |rules| && Decides(req, rules, j)
  }

  lemma {:induction false} FirstExists(req: Request, rules: seq<Rule>, j: nat)
    requires j < |rules| && Decides(req, rules, j)
    ensures exists i: nat :: i <= j && IsFirst(req, rules, i)
    decreases j
  {
    if i :| 0 <= i < j && Decides(req, rules, i) {
      FirstExists(req, rules, i);
    } else {
      assert IsFirst(req, rules, j);
    }
  }

  /** Every request has one outcome. */
  lemma OutcomeIsUnique(req: Request, rules: seq<Rule>, x: Result, y: Result)
    requires IsOutcome(req, rules, x) && IsOutcome(req, rules, y)
    ensures x == y
  {
    if j: nat :| IsFirst(req, rules, j) {
      FirstSettlesIt(req, rules, j, x);
      FirstSettlesIt(req, rules, j, y);
    }
  }

  lemma {:induction false} ApplicableAppends(a: seq<Rule>, b: seq<Rule>, path: string)
    ensures Applicable(a + b, path) == Applicable(a, path) + Applicable(b, path)
  {
    if b == [] {
      assert a + b == a;
    } else {
      var init, last := b[..|b| - 1], b[|b| - 1];
      ApplicableAppends(a, init, path);
      assert (a + b)[..|a + b| - 1] == a + init;
      Associative(Applicable(a, path), Applicable(init, path), [last]);
    }
  }

  /** A rule for other paths may stand anywhere in the list. */
  lemma OtherPathsDoNotMatter(a: seq<Rule>, other: Rule, b: seq<Rule>, req: Request, result: Result)
    requires !Glob.PathMatches(other.path, req.path)
    ensures IsOutcome(req, Applicable(a + [other] + b, req.path), result)
       <==> IsOutcome(req, Applicable(a + b, req.path), result)
  {
    ApplicableAppends(a + [other], b, req.path);
    ApplicableAppends(a, [other], req.path);
    ApplicableAppends(a, b, req.path);
    assert Applicable([other], req.path) == [] by { assert [other][..0] == []; }
  }

  lemma DecidesInPrefix(req: Request, a: seq<Rule>, b: seq<Rule>, j: nat)
    requires j < |a|
    ensures Decides(req, a + b, j) <==> Decides(req, a, j)
  {
    assert (a + b)[..j] == a[..j];
  }

  /** Once a rule decides, what follows it may be anything. */
  lemma LaterRulesDoNotMatter(req: Request, a: seq<Rule>, b: seq<Rule>, result: Result)
    requires SomeDecides(req, Applicable(a, req.path))
    ensures IsOutcome(req, Applicable(a + b, req.path), result) <==> IsOutcome(req, Applicable(a, req.path), result)
  {
    ApplicableAppends(a, b, req.path);
    var p, q := Applicable(a, req.path), Applicable(b, req.path);
    var d: nat :| d < |p| && Decides(req, p, d);
    FirstExists(req, p, d);
    var j: nat :| j <= d && IsFirst(req, p, j);
    FirstInPrefix(req, p, q, j);
    FirstSettlesIt(req, p, j, result);
    FirstSettlesIt(req, p + q, j, result);
  }

  lemma FirstInPrefix(req: Request, a: seq<Rule>, b: seq<Rule>, j: nat)
    requires IsFirst(req, a, j)
    ensures IsFirst(req, a + b, j) && Verdict(req, a + b, j) == Verdict(req, a, j)
  {
    forall i: nat | i <= j ensures Decides(req, a + b, i) <==> Decides(req, a, i) {
      DecidesInPrefix(req, a, b, i);
    }
    assert (a + b)[..j] == a[..j];
  }

  /** Fail closed: only a matching public rule lets a request through with neither credential nor session. */
  lemma OnlyPublicRulesAreOpen(req: Request, rules: seq<Rule>, result: Result)
    requires IsOutcome(req, Applicable(rules, req.path), result) && result.Anonymous?
    ensures exists r :: r in rules && r.kind.Public? && Glob.PathMatches(r.path, req.path)
  {
    var applicable := Applicable(rules, req.path);
    var j: nat :| IsFirst(req, applicable, j) && result == Verdict(req, applicable, j);
    ApplicableRulesMatch(rules, req.path, applicable[j]);
  }

  lemma {:induction false} ApplicableRulesMatch(rules: seq<Rule>, path: string, r: Rule)
    ensures r in Applicable(rules, path) <==> r in rules && Glob.PathMatches(r.path, path)
  {
    if rules != [] {
      var init, last := rules[..|rules| - 1], rules[|rules| - 1];
      ApplicableRulesMatch(init, path, r);
      assert rules == init + [last];
    }
  }
}
