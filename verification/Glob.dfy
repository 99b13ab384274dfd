/**
 * Path globs compiled to regular-expression text. The text is read back with the grammar of
 * section 22.2.1 of ECMA-262 (the part that sequences of atoms, `.` and `*` use) and matched with that
 * grammar's semantics, so that what the compiler writes can be compared with what the glob means.
 */
module Glob {
  import opened Common

  // ── The compiler ───────────────────────────────────────────────────────────

  /** SyntaxCharacter of section 22.2.1. */
  predicate IsSyntaxCharacter(c: char) {
    c in "^$\\.*+?()[]{}|"
  }

  /** `text.split('*')` */
  function SplitOnStar(text: string): (parts: seq<string>)
    ensures parts != []
  {
    if text == "" then [""]
    else
      var rest := SplitOnStar(text[1..]);
      if text[0] == '*' then [""] + rest else [[text[0]] + rest[0]] + rest[1..]
  }

  function EscapeChar(c: char): string {
    if IsSyntaxCharacter(c) then ['\\', c] else [c]
  }

  function EscapeRegExp(literal: string): string {
    if literal == "" then "" else EscapeChar(literal[0]) + EscapeRegExp(literal[1..])
  }

  function EscapeAll(parts: seq<string>): seq<string> {
    seq(|parts|, i requires 0 <= i < |parts| => EscapeRegExp(parts[i]))
  }

  function Join(parts: seq<string>, separator: string): string {
    if parts == [] then ""
    else if |parts| == 1 then parts[0]
    else parts[0] + separator + Join(parts[1..], separator)
  }

  function CompileGlob(pattern: string): string {
    "^" + Join(EscapeAll(SplitOnStar(pattern)), ".*") + "$"
  }

  // ── Reading regular-expression text ────────────────────────────────────────

  datatype Atom = AnyChar | Literal(c: char)
  datatype Term = Begin | End | One(atom: Atom) | Star(atom: Atom)

  /** One term and how much text it took; `None` for a syntax error or a construct outside this part. */
  function ReadTerm(text: string): Option<(Term, nat)>
    requires text != ""
  {
    var c := text[0];
    if c == '^' then Some((Begin, 1))
    else if c == '$' then Some((End, 1))
    else
      var atom := if c == '.' then Some((AnyChar, 1))
                  else if c == '\\' then
                    if |text| > 1 && IsSyntaxCharacter(text[1]) then Some((Literal(text[1]), 2)) else None
                  else if IsSyntaxCharacter(c) then None
                  else Some((Literal(c), 1));
      if atom.None? then None
      else
        var (a, n) := atom.value;
        if |text| > n && text[n] == '*' then Some((Star(a), n + 1)) else Some((One(a), n))
  }

  function ReadRegex(text: string): Option<seq<Term>> {
    if text == "" then Some([])
    else
      var head := ReadTerm(text);
      if head.None? then None
      else
        var (term, n) := head.value;
        if n == 0 || n > |text| then None
        else
          var tail := ReadRegex(text[n..]);
          if tail.None? then None else Some([term] + tail.value)
  }

  // ── Matching ───────────────────────────────────────────────────────────────

  /** LineTerminator: what `.` does not match without the `s` flag. */
  predicate IsLineTerminator(c: char) {
    c == '\n' || c == '\r' || c == '\U{2028}' || c == '\U{2029}'
  }

  predicate AtomMatches(a: Atom, c: char) {
    match a
    case AnyChar => !IsLineTerminator(c)
    case Literal(d) => c == d
  }

  /** The terms match some stretch of `s` that begins at `i`. */
  predicate MatchFrom(terms: seq<Term>, s: string, i: nat)
    requires i <= |s|
    decreases |terms|, |s| - i
  {
    if terms == [] then true
    else
      match terms[0]
      case Begin => i == 0 && MatchFrom(terms[1..], s, i)
      case End => i == |s| && MatchFrom(terms[1..], s, i)
      case One(a) => i < |s| && AtomMatches(a, s[i]) && MatchFrom(terms[1..], s, i + 1)
      case Star(a) => MatchFrom(terms[1..], s, i) || (i < |s| && AtomMatches(a, s[i]) && MatchFrom(terms, s, i + 1))
  }

  /** `regex.test(s)`: a match may begin anywhere. */
  predicate Test(terms: seq<Term>, s: string) {
    exists i :: 0 <= i <= |s| && MatchFrom(terms, s, i)
  }

  /** `new RegExp(text).test(path)` for the text the compiler writes. */
  predicate PathMatches(pattern: string, path: string) {
    var regex := ReadRegex(CompileGlob(pattern));
    regex.Some? && Test(regex.value, path)
  }

  // ── What a glob means ──────────────────────────────────────────────────────

  predicate OneLine(s: string) {
    forall c :: c in s ==> !IsLineTerminator(c)
  }

  /** Anchored: `*` stands for any run of characters, everything else for itself. */
  ghost predicate GlobDenotes(pattern: string, path: string) {
    if pattern == "" then path == ""
    else if pattern[0] == '*' then exists k :: 0 <= k <= |path| && GlobDenotes(pattern[1..], path[k..])
    else path != "" && path[0] == pattern[0] && GlobDenotes(pattern[1..], path[1..])
  }

  /** The same, with runs that stay on one line. */
  ghost predicate GlobDenotesOnOneLine(pattern: string, path: string) {
    if pattern == "" then path == ""
    else if pattern[0] == '*' then
      exists k :: 0 <= k <= |path| && OneLine(path[..k]) && GlobDenotesOnOneLine(pattern[1..], path[k..])
    else path != "" && path[0] == pattern[0] && GlobDenotesOnOneLine(pattern[1..], path[1..])
  }

  // ── The compiler writes one construct per pattern character ────────────────

  function BodyText(pattern: string): string {
    if pattern == "" then ""
    else (if pattern[0] == '*' then ".*" else EscapeChar(pattern[0])) + BodyText(pattern[1..])
  }

  lemma JoinCons(head: string, tail: seq<string>, separator: string)
    requires tail != []
    ensures Join([head] + tail, separator) == head + separator + Join(tail, separator)
  {
    assert ([head] + tail)[1..] == tail;
  }

  lemma JoinOntoHead(c: string, parts: seq<string>, separator: string)
    requires parts != []
    ensures Join([c + parts[0]] + parts[1..], separator) == c + Join(parts, separator)
  {
    if |parts| > 1 {
      JoinCons(c + parts[0], parts[1..], separator);
      assert c + parts[0] + separator + Join(parts[1..], separator) == c + (parts[0] + separator + Join(parts[1..], separator));
    } else {
      assert [c + parts[0]] + parts[1..] == [c + parts[0]];
    }
  }

  lemma EscapeAllParts(head: string, tail: seq<string>)
    ensures EscapeAll([head] + tail) == [EscapeRegExp(head)] + EscapeAll(tail)
  {
  }

  lemma {:induction false} SplitEscapeJoin(pattern: string)
    ensures Join(EscapeAll(SplitOnStar(pattern)), ".*") == BodyText(pattern)
  {
    if pattern == "" {
      assert EscapeAll([""]) == [""];
    } else {
      var rest := SplitOnStar(pattern[1..]);
      SplitEscapeJoin(pattern[1..]);
      if pattern[0] == '*' {
        EscapeAllParts("", rest);
        JoinCons("", EscapeAll(rest), ".*");
      } else {
        var head := [pattern[0]] + rest[0];
        assert head[1..] == rest[0];
        EscapeAllParts(head, rest[1..]);
        EscapeAllParts(rest[0], rest[1..]);
        assert rest == [rest[0]] + rest[1..];
        JoinOntoHead(EscapeChar(pattern[0]), EscapeAll(rest), ".*");
        assert EscapeAll(rest)[1..] == EscapeAll(rest[1..]);
      }
    }
  }

  // ── Reading it back ────────────────────────────────────────────────────────

  function TermOf(c: char): Term {
    if c == '*' then Star(AnyChar) else One(Literal(c))
  }

  function TermsOf(pattern: string): seq<Term> {
    seq(|pattern|, i requires 0 <= i < |pattern| => TermOf(pattern[i]))
  }

  /** No construct begins with a bare `*`, so none quantifies the one before it. */
  lemma BodyDoesNotStartWithStar(pattern: string)
    ensures (BodyText(pattern) + "$")[0] != '*'
  {
  }

  lemma ReadOneConstruct(c: char, rest: string)
    requires rest != "" && rest[0] != '*'
    ensures var text := (if c == '*' then ".*" else EscapeChar(c)) + rest;
            && ReadTerm(text) == Some((TermOf(c), |text| - |rest|))
            && text[|text| - |rest|..] == rest && |text| > |rest|
  {
  }

  lemma {:induction false} BodyReadsBack(pattern: string)
    ensures ReadRegex(BodyText(pattern) + "$") == Some(TermsOf(pattern) + [End])
  {
    if pattern == "" {
      assert BodyText(pattern) + "$" == "$" && "$"[1..] == "";
      assert ReadTerm("$") == Some((End, 1)) && ReadRegex("") == Some([]);
      assert TermsOf(pattern) + [End] == [End] + [];
    } else {
      var rest := BodyText(pattern[1..]) + "$";
      BodyReadsBack(pattern[1..]);
      BodyDoesNotStartWithStar(pattern[1..]);
      ReadOneConstruct(pattern[0], rest);
      Associative(if pattern[0] == '*' then ".*" else EscapeChar(pattern[0]), BodyText(pattern[1..]), "$");
      assert TermsOf(pattern) + [End] == [TermOf(pattern[0])] + (TermsOf(pattern[1..]) + [End]);
    }
  }

  /** For every pattern: the compiled text is well formed and says begin, one term a character, end. */
  lemma CompiledTextReadsBack(pattern: string)
    ensures ReadRegex(CompileGlob(pattern)) == Some([Begin] + TermsOf(pattern) + [End])
  {
    SplitEscapeJoin(pattern);
    BodyReadsBack(pattern);
    var text := CompileGlob(pattern);
    assert text[1..] == BodyText(pattern) + "$";
    assert [Begin] + TermsOf(pattern) + [End] == [Begin] + (TermsOf(pattern) + [End]);
  }

  // ── Matching it ────────────────────────────────────────────────────────────

  lemma StarGivesWayOrTakesOne(pattern: string, path: string)
    requires pattern != "" && pattern[0] == '*' && GlobDenotesOnOneLine(pattern, path)
    ensures GlobDenotesOnOneLine(pattern[1..], path)
      || (path != "" && !IsLineTerminator(path[0]) && GlobDenotesOnOneLine(pattern, path[1..]))
  {
    var k :| 0 <= k <= |path| && OneLine(path[..k]) && GlobDenotesOnOneLine(pattern[1..], path[k..]);
    if k == 0 {
      assert path[0..] == path;
    } else {
      assert path[..k][0] == path[0];
      assert path[1..][..k - 1] == path[..k][1..] && path[1..][k - 1..] == path[k..];
    }
  }

  lemma StarMayGiveWay(pattern: string, path: string)
    requires pattern != "" && pattern[0] == '*' && GlobDenotesOnOneLine(pattern[1..], path)
    ensures GlobDenotesOnOneLine(pattern, path)
  {
    assert path[0..] == path && OneLine(path[..0]);
  }

  lemma StarMayTakeOne(pattern: string, path: string)
    requires pattern != "" && pattern[0] == '*' && path != "" && !IsLineTerminator(path[0])
    requires GlobDenotesOnOneLine(pattern, path[1..])
    ensures GlobDenotesOnOneLine(pattern, path)
  {
    var rest := path[1..];
    var k :| 0 <= k <= |rest| && OneLine(rest[..k]) && GlobDenotesOnOneLine(pattern[1..], rest[k..]);
    assert path[k + 1..] == rest[k..];
    assert OneLine(path[..k + 1]) by {
      assert path[..k + 1] == [path[0]] + rest[..k];
    }
  }

  lemma {:induction false} TermsMatchTheGlob(pattern: string, path: string, i: nat)
    requires i <= |path|
    ensures MatchFrom(TermsOf(pattern) + [End], path, i) <==> GlobDenotesOnOneLine(pattern, path[i..])
    decreases |pattern|, |path| - i
  {
    var terms := TermsOf(pattern) + [End];
    if pattern == "" {
      assert terms == [End] && terms[1..] == [];
    } else {
      assert terms[0] == TermOf(pattern[0]) && terms[1..] == TermsOf(pattern[1..]) + [End];
      if i < |path| {
        assert path[i..][0] == path[i] && path[i..][1..] == path[i + 1..];
      }
      if pattern[0] == '*' {
        TermsMatchTheGlob(pattern[1..], path, i);
        if i < |path| {
          TermsMatchTheGlob(pattern, path, i + 1);
        }
        if GlobDenotesOnOneLine(pattern, path[i..]) {
          StarGivesWayOrTakesOne(pattern, path[i..]);
        }
        if GlobDenotesOnOneLine(pattern[1..], path[i..]) {
          StarMayGiveWay(pattern, path[i..]);
        } else if i < |path| && !IsLineTerminator(path[i]) && GlobDenotesOnOneLine(pattern, path[i + 1..]) {
          StarMayTakeOne(pattern, path[i..]);
        }
      } else if i < |path| {
        TermsMatchTheGlob(pattern[1..], path, i + 1);
      }
    }
  }

  /** Exactly what the compiled pattern accepts, for every pattern and every path. */
  lemma CompilerPreservesMeaning(pattern: string, path: string)
    ensures PathMatches(pattern, path) <==> GlobDenotesOnOneLine(pattern, path)
  {
    CompiledTextReadsBack(pattern);
    var terms := [Begin] + TermsOf(pattern) + [End];
    assert terms[1..] == TermsOf(pattern) + [End];
    TermsMatchTheGlob(pattern, path, 0);
    assert path[0..] == path;
    assert MatchFrom(terms, path, 0) <==> MatchFrom(terms[1..], path, 0);
    assert forall i :: 0 < i <= |path| ==> !MatchFrom(terms, path, i);
  }

  lemma {:induction false} OneLinePathsNeedNoCare(pattern: string, path: string)
    requires OneLine(path)
    ensures GlobDenotesOnOneLine(pattern, path) <==> GlobDenotes(pattern, path)
    decreases |pattern|
  {
    if pattern != "" {
      forall k | 0 <= k <= |path|
        ensures OneLine(path[..k])
        ensures GlobDenotesOnOneLine(pattern[1..], path[k..]) <==> GlobDenotes(pattern[1..], path[k..])
      {
        OneLinePathsNeedNoCare(pattern[1..], path[k..]);
      }
    }
  }

  /** A path without line terminators, as a URL's always is, matches exactly when the glob denotes it. */
  lemma PathMatchesWhatTheGlobDenotes(pattern: string, path: string)
    requires OneLine(path)
    ensures PathMatches(pattern, path) <==> GlobDenotes(pattern, path)
  {
    CompilerPreservesMeaning(pattern, path);
    OneLinePathsNeedNoCare(pattern, path);
  }

  lemma OnlyTheEmptyPatternIsEmpty(path: string)
    ensures GlobDenotes("", path) <==> path == ""
    ensures GlobDenotesOnOneLine("", path) <==> path == ""
  {
  }

  /** With a line terminator the two part ways: a lone star denotes every path and matches the one-line ones. */
  lemma LoneStarMatchesOneLine(path: string)
    ensures GlobDenotes("*", path)
    ensures PathMatches("*", path) <==> OneLine(path)
  {
    assert "*"[1..] == "" && path[|path|..] == "" && path[..|path|] == path;
    OnlyTheEmptyPatternIsEmpty("");
    assert GlobDenotes("*"[1..], path[|path|..]);
    CompilerPreservesMeaning("*", path);
    if k :| 0 <= k <= |path| && OneLine(path[..k]) && GlobDenotesOnOneLine("*"[1..], path[k..]) {
      OnlyTheEmptyPatternIsEmpty(path[k..]);
      assert k == |path|;
    }
    if OneLine(path) {
      assert GlobDenotesOnOneLine("*"[1..], path[|path|..]);
    }
  }
}
