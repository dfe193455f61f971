/**
 * The URL-template engine: which `{name}` placeholders a platform's template
 * references, and the URL obtained by substituting the PSM and the selected
 * variable values into it.
 */
module Navigator {
  import opened Strings
  import opened Seqs

  /** The reserved placeholder, always replaced by the PSM. */
  const PsmName: string := "psm"

  /** The placeholder text `{name}`. */
  function Token(name: string): string {
    "{" + name + "}"
  }

  /** The characters `[a-zA-Z0-9_]` a placeholder name is made of. */
  predicate IsNameChar(c: char) {
    ('a' <= c <= 'z') || ('A' <= c <= 'Z') || ('0' <= c <= '9') || c == '_'
  }

  /** A name the placeholder pattern recognises: one or more name characters. */
  predicate IsName(n: string) {
    |n| > 0 && forall i :: 0 <= i < |n| ==> IsNameChar(n[i])
  }

  /** Neither brace occurs in `s`. */
  predicate BraceFree(s: string) {
    '{' !in s && '}' !in s
  }

  /** The length of the longest run of name characters at the start of `s`. */
  function NameRun(s: string): (n: nat)
    ensures n <= |s|
    ensures forall i :: 0 <= i < n ==> IsNameChar(s[i])
    ensures n < |s| ==> !IsNameChar(s[n])
    decreases |s|
  {
    if s != [] && IsNameChar(s[0]) then 1 + NameRun(s[1..]) else 0
  }

  /** An occurrence in a suffix is an occurrence in the whole string. */
  lemma OccursInSuffix(s: string, k: nat, pat: string)
    requires k <= |s| && Occurs(s[k..], pat)
    ensures Occurs(s, pat)
  {
    var i: nat :| i <= |s[k..]| && OccursAt(s[k..], pat, i);
    assert s[k..][i..i + |pat|] == s[k + i..k + i + |pat|];
    assert OccursAt(s, pat, k + i);
  }

  /**
   * The names matched by `/{([a-zA-Z0-9_]+)}/g` in `s`, braces stripped, in
   * the order of the matches. A match is a `{`, a maximal run of name
   * characters and a `}`; the scan resumes after each match.
   */
  function Placeholders(s: string): (names: seq<string>)
    ensures forall i :: 0 <= i < |names| ==> IsName(names[i]) && Occurs(s, Token(names[i]))
    decreases |s|
  {
    if s == [] then []
    else
      var n := NameRun(s[1..]);
      if s[0] == '{' && 0 < n && n + 1 < |s| && s[n + 1] == '}' then
        var name := s[1..n + 1];
        var rest := Placeholders(s[n + 2..]);
        assert OccursAt(s, Token(name), 0) by {
          assert s[..|Token(name)|] == Token(name);
        }
        forall i | 0 <= i < |rest| ensures Occurs(s, Token(rest[i])) {
          OccursInSuffix(s, n + 2, Token(rest[i]));
        }
        [name] + rest
      else
        var rest := Placeholders(s[1..]);
        forall i | 0 <= i < |rest| ensures Occurs(s, Token(rest[i])) {
          OccursInSuffix(s, 1, Token(rest[i]));
        }
        rest
  }

  /**
   * The converse of `Placeholders`' contract: every well-formed `{name}` in
   * the text is matched. A match can neither start inside another match
   * nor be skipped by the scan, whatever text surrounds it.
   */
  lemma {:induction false} PlaceholdersComplete(s: string, n: string, i: nat)
    requires IsName(n) && OccursAt(s, Token(n), i)
    ensures n in Placeholders(s)
    decreases |s|
  {
    var m := NameRun(s[1..]);
    if i == 0 {
      FrontMatch(s, n);
      PlaceholdersMatch(s, m);
    } else if s[0] == '{' && 0 < m && m + 1 < |s| && s[m + 1] == '}' {
      MatchSkipsRun(s, m, Token(n), i);
      OccursAtSuffix(s, Token(n), m + 2, i);
      PlaceholdersComplete(s[m + 2..], n, i - (m + 2));
      PlaceholdersMatch(s, m);
    } else {
      OccursAtSuffix(s, Token(n), 1, i);
      PlaceholdersComplete(s[1..], n, i - 1);
      PlaceholdersPlain(s, m);
    }
  }

  /** One step of the scan at a match: its name, then the scan of the rest. */
  lemma PlaceholdersMatch(s: string, m: nat)
    requires s != [] && m == NameRun(s[1..])
    requires s[0] == '{' && 0 < m && m + 1 < |s| && s[m + 1] == '}'
    ensures Placeholders(s) == [s[1..m + 1]] + Placeholders(s[m + 2..])
  {
  }

  /** One step of the scan where no match starts: the scan of the rest. */
  lemma PlaceholdersPlain(s: string, m: nat)
    requires s != [] && m == NameRun(s[1..])
    requires !(s[0] == '{' && 0 < m && m + 1 < |s| && s[m + 1] == '}')
    ensures Placeholders(s) == Placeholders(s[1..])
  {
  }

  /** After a match at the front, the next `{` comes after its closing brace. */
  lemma MatchSkipsRun(s: string, m: nat, pat: string, i: nat)
    requires s != [] && m == NameRun(s[1..]) && m + 1 < |s| && s[m + 1] == '}'
    requires 0 < i && OccursAt(s, pat, i) && pat != [] && pat[0] == '{'
    ensures i >= m + 2
  {
    assert s[i] == pat[0];
    assert forall j :: 1 <= j <= m ==> s[j] == s[1..][j - 1];
  }

  /** A well-formed placeholder at the very front is what the scan matches first. */
  lemma FrontMatch(s: string, n: string)
    requires IsName(n) && OccursAt(s, Token(n), 0)
    ensures s != [] && s[0] == '{' && NameRun(s[1..]) == |n| && |n| + 1 < |s| && s[|n| + 1] == '}'
    ensures s[1..|n| + 1] == n
  {
    var k := |Token(n)|;
    assert s == Token(n) + s[k..];
    TokenFront(n, s[k..]);
  }

  /** An occurrence past `k` is an occurrence in the suffix from `k`. */
  lemma OccursAtSuffix(s: string, pat: string, k: nat, i: nat)
    requires k <= i && OccursAt(s, pat, i)
    ensures OccursAt(s[k..], pat, i - k)
  {
    assert s[k..][i - k..i - k + |pat|] == s[i..i + |pat|];
  }

  /** A placeholder name other than the reserved `psm`. */
  predicate IsVariable(n: string) {
    n != PsmName
  }

  /**
   * `extractVariables`: the placeholder names of a template other than the
   * reserved `psm`, in template order, duplicates kept.
   */
  function ExtractVariables(template: string): (names: seq<string>)
    ensures forall i :: 0 <= i < |names| ==>
      names[i] != PsmName && IsName(names[i]) && Occurs(template, Token(names[i]))
    ensures '{' !in template ==> names == []
  {
    var all := Placeholders(template);
    var names := Filter(IsVariable, all);
    NoBraceNoPlaceholders(template);
    forall i | 0 <= i < |names|
      ensures names[i] != PsmName && IsName(names[i]) && Occurs(template, Token(names[i]))
    {
      assert names[i] in all;
    }
    names
  }

  /**
   * The converse of `ExtractVariables`' contract: every well-formed
   * `{name}` in the template other than `{psm}` is reported.
   */
  lemma ExtractVariablesComplete(template: string, n: string, i: nat)
    requires IsName(n) && n != PsmName && OccursAt(template, Token(n), i)
    ensures n in ExtractVariables(template)
  {
    PlaceholdersComplete(template, n, i);
  }

  /** Text without an opening brace holds no placeholder. */
  lemma {:induction false} NoBraceNoPlaceholders(s: string)
    ensures '{' !in s ==> Placeholders(s) == []
    decreases |s|
  {
    if s != [] && '{' !in s {
      NoBraceNoPlaceholders(s[1..]);
    }
  }

  /** A template assembled from literal text and placeholders: `lits[0] {names[0]} lits[1] ... lits[n]`. */
  function Compose(lits: seq<string>, names: seq<string>): string
    requires |lits| == |names| + 1
    decreases |names|
  {
    if names == [] then lits[0]
    else lits[0] + Token(names[0]) + Compose(lits[1..], names[1..])
  }

  /** Text without `{` before a string contributes no match. */
  lemma {:induction false} PlaceholdersSkipPlain(a: string, s: string)
    requires '{' !in a
    ensures Placeholders(a + s) == Placeholders(s)
    decreases |a|
  {
    if a != [] {
      var x := a + s;
      assert x[0] == a[0] && x[1..] == a[1..] + s;
      assert Placeholders(x) == Placeholders(x[1..]);
      PlaceholdersSkipPlain(a[1..], s);
    } else {
      assert a + s == s;
    }
  }

  /** A well-formed placeholder at the front is matched, and the scan resumes after it. */
  lemma PlaceholdersTakeToken(n: string, s: string)
    requires IsName(n)
    ensures Placeholders(Token(n) + s) == [n] + Placeholders(s)
  {
    TokenFront(n, s);
  }

  /** How the scan sees a placeholder at the front: `{`, a name run as long as the name, `}`. */
  lemma TokenFront(n: string, s: string)
    requires IsName(n)
    ensures var x := Token(n) + s;
      && x != [] && x[0] == '{' && NameRun(x[1..]) == |n| && |n| + 1 < |x| && x[|n| + 1] == '}'
      && x[1..|n| + 1] == n && x[|n| + 2..] == s
  {
    var x := Token(n) + s;
    var tail := x[1..];
    assert tail == n + ("}" + s);
    assert tail[|n|] == '}';
    assert NameRun(tail) == |n|;
    assert x[1..|n| + 1] == n;
    assert x[|n| + 2..] == s;
  }

  /**
   * Round trip: the placeholders found in a composed template are exactly
   * the names it was composed from, in order and with their repetitions.
   */
  lemma {:induction false} PlaceholdersOfCompose(lits: seq<string>, names: seq<string>)
    requires |lits| == |names| + 1
    requires forall i :: 0 <= i < |lits| ==> '{' !in lits[i]
    requires forall i :: 0 <= i < |names| ==> IsName(names[i])
    ensures Placeholders(Compose(lits, names)) == names
    decreases |names|
  {
    if names == [] {
      PlaceholdersSkipPlain(lits[0], []);
      assert lits[0] + [] == lits[0];
    } else {
      var rest := Compose(lits[1..], names[1..]);
      assert Compose(lits, names) == lits[0] + (Token(names[0]) + rest);
      PlaceholdersSkipPlain(lits[0], Token(names[0]) + rest);
      PlaceholdersTakeToken(names[0], rest);
      PlaceholdersOfCompose(lits[1..], names[1..]);
    }
  }

  /** `extractVariables` of a composed template: its names in order, without `psm`. */
  lemma ExtractVariablesOfCompose(lits: seq<string>, names: seq<string>)
    requires |lits| == |names| + 1
    requires forall i :: 0 <= i < |lits| ==> '{' !in lits[i]
    requires forall i :: 0 <= i < |names| ==> IsName(names[i])
    ensures ExtractVariables(Compose(lits, names)) == Filter(IsVariable, names)
  {
    PlaceholdersOfCompose(lits, names);
  }

  // ---------------------------------------------------------------------
  // generateUrl

  /** The characters with a meaning in a JavaScript regular expression. */
  predicate IsRegexMeta(c: char) {
    c in "\\^$.|?*+()[]{}"
  }

  predicate IsDigits(s: string) {
    |s| > 0 && forall i :: 0 <= i < |s| ==> '0' <= s[i] <= '9'
  }

  /**
   * `{k}` reads as a braced quantifier (`{3}`, `{3,}`, `{3,5}`), which
   * `new RegExp` rejects with a SyntaxError when nothing precedes it.
   */
  predicate IsQuantifierBody(k: string) {
    IsDigits(k) ||
    exists i :: 0 < i < |k| && k[i] == ',' && IsDigits(k[..i]) && (i == |k| - 1 || IsDigits(k[i + 1..]))
  }

  /** A variable name for which the pattern `{name}` built at runtime matches exactly the text `{name}`. */
  predicate IsLiteralKey(k: string) {
    (forall i :: 0 <= i < |k| ==> !IsRegexMeta(k[i])) && !IsQuantifierBody(k)
  }

  /** A replacement string without `$`, so that `replace` inserts it as it is. */
  predicate IsPlainReplacement(v: string) {
    '$' !in v
  }

  /** Substitutes each `(key, value)` entry in turn, every `{key}` replaced by `value`. */
  function Substitute(url: string, vars: seq<(string, string)>): string
    decreases |vars|
  {
    if vars == [] then url
    else Substitute(ReplaceAll(url, Token(vars[0].0), vars[0].1), vars[1..])
  }

  /** The URL `generateUrl` computes: first `{psm}`, then the variables in entry order. */
  function GeneratedUrl(template: string, psm: string, vars: seq<(string, string)>): string {
    Substitute(ReplaceAll(template, Token(PsmName), psm), vars)
  }

  /**
   * `generateUrl(template, psm, variables)`, with the variables given as
   * their entries in `Object.entries` order.
   */
  method GenerateUrl(template: string, psm: string, variables: seq<(string, string)>) returns (url: string)
    requires IsPlainReplacement(psm)
    requires forall i :: 0 <= i < |variables| ==>
      IsLiteralKey(variables[i].0) && IsPlainReplacement(variables[i].1)
    ensures url == GeneratedUrl(template, psm, variables)
  {
    url := ReplaceAll(template, Token(PsmName), psm);
    for i := 0 to |variables|
      invariant Substitute(url, variables[i..]) == GeneratedUrl(template, psm, variables)
    {
      var (key, value) := variables[i];
      url := ReplaceAll(url, Token(key), value);
    }
    assert variables[|variables|..] == [];
  }

  /** A template without `{psm}`, given no variables, comes back unchanged. */
  lemma GeneratedUrlIdentity(template: string, psm: string)
    requires !Occurs(template, Token(PsmName))
    ensures GeneratedUrl(template, psm, []) == template
  {
    ReplaceAllAbsent(template, Token(PsmName), psm);
  }

  /** A template without any `{` comes back unchanged, whatever the PSM and variables. */
  lemma {:induction false} GeneratedUrlNoPlaceholder(template: string, psm: string, vars: seq<(string, string)>)
    requires '{' !in template
    ensures GeneratedUrl(template, psm, vars) == template
  {
    NoBraceNoToken(template, PsmName);
    ReplaceAllAbsent(template, Token(PsmName), psm);
    SubstituteNoPlaceholder(template, vars);
  }

  lemma NoBraceNoToken(s: string, name: string)
    requires '{' !in s
    ensures !Occurs(s, Token(name))
  {
    forall i: nat ensures !OccursAt(s, Token(name), i) {
      if i + |Token(name)| <= |s| {
        assert s[i..i + |Token(name)|][0] == s[i];
      }
    }
  }

  lemma {:induction false} SubstituteNoPlaceholder(s: string, vars: seq<(string, string)>)
    requires '{' !in s
    ensures Substitute(s, vars) == s
    decreases |vars|
  {
    if vars != [] {
      NoBraceNoToken(s, vars[0].0);
      ReplaceAllAbsent(s, Token(vars[0].0), vars[0].1);
      SubstituteNoPlaceholder(s, vars[1..]);
    }
  }

  /** Text without `{` passes through a replacement of a `{...}` pattern untouched. */
  lemma {:induction false} ReplaceAllSkipPlain(a: string, b: string, pat: string, rep: string)
    requires pat != [] && pat[0] == '{' && '{' !in a
    ensures ReplaceAll(a + b, pat, rep) == a + ReplaceAll(b, pat, rep)
    decreases |a|
  {
    if a == [] {
      assert a + b == b;
    } else if |a + b| < |pat| {
      assert ReplaceAll(b, pat, rep) == b;
    } else {
      var c, t := a[0], a[1..];
      assert a == [c] + t;
      AppendAssoc([c], t, b);
      assert ([c] + (t + b))[..|pat|] != pat by { assert ([c] + (t + b))[..|pat|][0] == c != pat[0]; }
      ReplaceAllCons(c, t + b, pat, rep);
      ReplaceAllSkipPlain(t, b, pat, rep);
      AppendAssoc([c], t, ReplaceAll(b, pat, rep));
    }
  }

  /** Two placeholders at the start of a string, both with brace-free names, have the same name. */
  lemma TokenPrefixUnique(s: string, k: string, n: string)
    requires BraceFree(k) && BraceFree(n)
    ensures OccursAt(s, Token(k), 0) && OccursAt(s, Token(n), 0) ==> k == n
  {
    if OccursAt(s, Token(k), 0) && OccursAt(s, Token(n), 0) {
      var c := s[1..];
      var tn, tk := Token(n), Token(k);
      assert s[..|tn|] == tn && s[..|tk|] == tk;
      assert c[..|n|] == tn[1..|n| + 1] == n && c[|n|] == tn[|n| + 1] == '}';
      assert c[..|k|] == tk[1..|k| + 1] == k && c[|k|] == tk[|k| + 1] == '}';
      assert forall j :: 0 <= j < |n| ==> c[j] != '}' by { assert forall j :: 0 <= j < |n| ==> c[j] == n[j]; }
      assert forall j :: 0 <= j < |k| ==> c[j] != '}' by { assert forall j :: 0 <= j < |k| ==> c[j] == k[j]; }
      assert !(|n| < |k|);
      assert !(|k| < |n|);
    }
  }

  /**
   * A placeholder `{n}` found while `{k}` matches at the front lies after
   * that match, unless it is the same placeholder.
   */
  lemma TokensDisjoint(s: string, k: string, n: string, i: nat)
    requires BraceFree(k) && BraceFree(n)
    requires OccursAt(s, Token(k), 0) && OccursAt(s, Token(n), i)
    ensures i >= |Token(k)| || (i == 0 && k == n)
  {
    var pat, tok := Token(k), Token(n);
    assert s[i] == '{' by { assert s[i..i + |tok|][0] == s[i]; }
    assert forall j :: 0 < j < |pat| ==> s[j] != '{' by {
      assert s[..|pat|] == pat;
      assert forall j :: 0 < j < |pat| ==> pat[j] != '{';
    }
    if i == 0 {
      TokenPrefixUnique(s, k, n);
    }
  }

  /** A placeholder at the front that the pattern does not match at the front is copied to the output. */
  lemma FrontTokenKept(pat: string, n: string, b: string, rep: string)
    requires pat != [] && pat[0] == '{' && BraceFree(n)
    requires |Token(n) + b| >= |pat| && (Token(n) + b)[..|pat|] != pat
    ensures OccursAt(ReplaceAll(Token(n) + b, pat, rep), Token(n), 0)
  {
    TokenCopied(pat, n, b, rep);
    var r := ReplaceAll(b, pat, rep);
    assert (Token(n) + r)[..|Token(n)|] == Token(n);
  }

  /** A placeholder at the front that does not start a match is copied through whole. */
  lemma TokenCopied(pat: string, n: string, b: string, rep: string)
    requires pat != [] && pat[0] == '{' && BraceFree(n)
    requires |Token(n) + b| >= |pat| && (Token(n) + b)[..|pat|] != pat
    ensures ReplaceAll(Token(n) + b, pat, rep) == Token(n) + ReplaceAll(b, pat, rep)
  {
    var a := n + "}";
    assert Token(n) + b == ['{'] + (a + b);
    assert '{' !in a;
    BraceAfterPlain(pat, rep, a, b);
    var r := ReplaceAll(b, pat, rep);
    assert ['{'] + (a + r) == Token(n) + r;
  }

  /** A brace that does not start a match, followed by text without `{`, is copied through. */
  lemma BraceAfterPlain(pat: string, rep: string, a: string, b: string)
    requires pat != [] && pat[0] == '{' && '{' !in a
    requires |a + b| + 1 >= |pat| && (['{'] + (a + b))[..|pat|] != pat
    ensures ReplaceAll(['{'] + (a + b), pat, rep) == ['{'] + (a + ReplaceAll(b, pat, rep))
  {
    ReplaceAllCons('{', a + b, pat, rep);
    ReplaceAllSkipPlain(a, b, pat, rep);
  }

  /** A first character that does not start a match is copied through. */
  lemma ReplaceAllCons(c: char, t: string, pat: string, rep: string)
    requires pat != [] && |[c] + t| >= |pat| && ([c] + t)[..|pat|] != pat
    ensures ReplaceAll([c] + t, pat, rep) == [c] + ReplaceAll(t, pat, rep)
  {
    assert ([c] + t)[1..] == t;
  }

  /**
   * Replacing `{k}` keeps every occurrence of a placeholder `{n}` with a
   * different brace-free name: two such placeholders never overlap.
   */
  lemma {:induction false} TokenSurvivesReplace(s: string, k: string, n: string, rep: string, i: nat)
    requires BraceFree(k) && BraceFree(n) && k != n
    requires OccursAt(s, Token(n), i)
    ensures Occurs(ReplaceAll(s, Token(k), rep), Token(n))
    decreases |s|
  {
    var pat, tok := Token(k), Token(n);
    var r := ReplaceAll(s, pat, rep);
    if |s| < |pat| {
      assert OccursAt(r, tok, i);
    } else if s[..|pat|] == pat {
      TokensDisjoint(s, k, n, i);
      var t := s[|pat|..];
      assert t[i - |pat|..i - |pat| + |tok|] == s[i..i + |tok|];
      TokenSurvivesReplace(t, k, n, rep, i - |pat|);
      assert r[|rep|..] == ReplaceAll(t, pat, rep);
      OccursInSuffix(r, |rep|, tok);
    } else if i > 0 {
      var t := s[1..];
      assert t[i - 1..i - 1 + |tok|] == s[i..i + |tok|];
      TokenSurvivesReplace(t, k, n, rep, i - 1);
      assert r[1..] == ReplaceAll(t, pat, rep);
      OccursInSuffix(r, 1, tok);
    } else {
      var b := s[|tok|..];
      assert s == tok + b by { assert s[..|tok|] == tok; }
      FrontTokenKept(pat, n, b, rep);
    }
  }

  /** Substituting variables none of which is named `n` keeps every `{n}`. */
  lemma {:induction false} TokenSurvivesSubstitute(s: string, vars: seq<(string, string)>, n: string)
    requires BraceFree(n) && Occurs(s, Token(n))
    requires forall j :: 0 <= j < |vars| ==> vars[j].0 != n && BraceFree(vars[j].0)
    ensures Occurs(Substitute(s, vars), Token(n))
    decreases |vars|
  {
    if vars != [] {
      var i: nat :| i <= |s| && OccursAt(s, Token(n), i);
      TokenSurvivesReplace(s, vars[0].0, n, vars[0].1, i);
      TokenSurvivesSubstitute(ReplaceAll(s, Token(vars[0].0), vars[0].1), vars[1..], n);
    }
  }

  /** A literal key contains no brace. */
  lemma LiteralKeyBraceFree(k: string)
    requires IsLiteralKey(k)
    ensures BraceFree(k)
  {
    assert forall i :: 0 <= i < |k| ==> k[i] != '{' && k[i] != '}';
  }

  /**
   * A placeholder whose name is neither `psm` nor a key of the variables
   * stays in the generated URL verbatim.
   */
  lemma UnknownPlaceholderKept(template: string, psm: string, vars: seq<(string, string)>, n: string)
    requires IsName(n) && n != PsmName && Occurs(template, Token(n))
    requires forall j :: 0 <= j < |vars| ==> vars[j].0 != n && IsLiteralKey(vars[j].0)
    ensures Occurs(GeneratedUrl(template, psm, vars), Token(n))
  {
    assert BraceFree(n) by {
      assert forall i :: 0 <= i < |n| ==> n[i] != '{' && n[i] != '}';
    }
    forall j | 0 <= j < |vars| ensures BraceFree(vars[j].0) {
      LiteralKeyBraceFree(vars[j].0);
    }
    var i: nat :| i <= |template| && OccursAt(template, Token(n), i);
    TokenSurvivesReplace(template, PsmName, n, psm, i);
    TokenSurvivesSubstitute(ReplaceAll(template, Token(PsmName), psm), vars, n);
  }

  // ---------------------------------------------------------------------
  // A reference definition: one pass over the placeholders

  /**
   * The composed template with each placeholder whose name is in `filled`
   * replaced by its value, and every other placeholder kept verbatim.
   */
  function Resolve(lits: seq<string>, names: seq<string>, filled: map<string, string>): string
    requires |lits| == |names| + 1
    decreases |names|
  {
    if names == [] then lits[0]
    else
      lits[0] + Slot(names[0], filled) + Resolve(lits[1..], names[1..], filled)
  }

  /** The values `Substitute` ends up using: for each key its first entry, unless already filled. */
  function Fills(vars: seq<(string, string)>, filled: map<string, string>): map<string, string>
    decreases |vars|
  {
    if vars == [] then filled
    else Fills(vars[1..], if vars[0].0 in filled then filled else filled[vars[0].0 := vars[0].1])
  }

  /** Nothing filled: the template itself. */
  lemma {:induction false} ResolveNothing(lits: seq<string>, names: seq<string>)
    requires |lits| == |names| + 1
    ensures Resolve(lits, names, map[]) == Compose(lits, names)
    decreases |names|
  {
    if names != [] {
      ResolveNothing(lits[1..], names[1..]);
    }
  }

  lemma ReplaceAllFront(pat: string, b: string, rep: string)
    requires pat != []
    ensures ReplaceAll(pat + b, pat, rep) == rep + ReplaceAll(b, pat, rep)
  {
    assert (pat + b)[..|pat|] == pat && (pat + b)[|pat|..] == b;
  }

  lemma ReplaceAllSkipToken(m: string, b: string, k: string, rep: string)
    requires BraceFree(m) && BraceFree(k) && m != k
    ensures ReplaceAll(Token(m) + b, Token(k), rep) == Token(m) + ReplaceAll(b, Token(k), rep)
  {
    var s, pat := Token(m) + b, Token(k);
    if |s| < |pat| {
      assert ReplaceAll(b, pat, rep) == b;
    } else {
      assert OccursAt(s, Token(m), 0) by { assert s[..|Token(m)|] == Token(m); }
      TokenPrefixUnique(s, k, m);
      assert s[..|pat|] != pat;
      TokenCopied(pat, m, b, rep);
    }
  }

  /** Values and literal text without `{` stay as they are; that is all the lemmas below need of them. */
  predicate OpenFree(filled: map<string, string>) {
    forall n :: n in filled ==> '{' !in filled[n]
  }

  /** The text a placeholder named `n` stands for once the names in `filled` are filled in. */
  function Slot(n: string, filled: map<string, string>): string {
    if n in filled then filled[n] else Token(n)
  }

  /** One replacement pass over a single slot and whatever follows it. */
  lemma ReplaceSlot(n: string, filled: map<string, string>, k: string, v: string, rest: string)
    requires IsName(n) && OpenFree(filled) && BraceFree(k)
    ensures ReplaceAll(Slot(n, filled) + rest, Token(k), v)
         == Slot(n, if k in filled then filled else filled[k := v]) + ReplaceAll(rest, Token(k), v)
  {
    assert BraceFree(n) by {
      assert forall i :: 0 <= i < |n| ==> n[i] != '{' && n[i] != '}';
    }
    if n in filled {
      ReplaceAllSkipPlain(filled[n], rest, Token(k), v);
    } else if n == k {
      ReplaceAllFront(Token(k), rest, v);
    } else {
      ReplaceAllSkipToken(n, rest, k, v);
    }
  }

  /** A resolved template with a placeholder is its first literal, first slot and the rest. */
  lemma ResolveCons(lits: seq<string>, names: seq<string>, filled: map<string, string>)
    requires |lits| == |names| + 1 && names != []
    ensures Resolve(lits, names, filled)
         == lits[0] + (Slot(names[0], filled) + Resolve(lits[1..], names[1..], filled))
  {
  }

  /** One replacement pass over a literal, a slot and a tail whose own pass is known. */
  lemma ReplaceThrough(lit: string, n: string, filled: map<string, string>, k: string, v: string,
                       rest: string, rest': string)
    requires '{' !in lit && IsName(n) && OpenFree(filled) && BraceFree(k)
    requires ReplaceAll(rest, Token(k), v) == rest'
    ensures ReplaceAll(lit + (Slot(n, filled) + rest), Token(k), v)
         == lit + (Slot(n, if k in filled then filled else filled[k := v]) + rest')
  {
    ReplaceAllSkipPlain(lit, Slot(n, filled) + rest, Token(k), v);
    ReplaceSlot(n, filled, k, v, rest);
  }

  /** One replacement pass over a resolved template fills in the placeholders named `k`. */
  lemma {:induction false} ReplaceResolve(lits: seq<string>, names: seq<string>, filled: map<string, string>,
                                          k: string, v: string)
    requires |lits| == |names| + 1
    requires forall i :: 0 <= i < |lits| ==> '{' !in lits[i]
    requires forall i :: 0 <= i < |names| ==> IsName(names[i])
    requires OpenFree(filled) && BraceFree(k)
    ensures ReplaceAll(Resolve(lits, names, filled), Token(k), v)
         == Resolve(lits, names, if k in filled then filled else filled[k := v])
    decreases |names|
  {
    var pat := Token(k);
    var filled' := if k in filled then filled else filled[k := v];
    if names == [] {
      ReplaceAllSkipPlain(lits[0], [], pat, v);
      assert lits[0] + [] == lits[0];
    } else {
      ReplaceResolve(lits[1..], names[1..], filled, k, v);
      ResolveCons(lits, names, filled);
      ResolveCons(lits, names, filled');
      ReplaceThrough(lits[0], names[0], filled, k, v, Resolve(lits[1..], names[1..], filled),
                     Resolve(lits[1..], names[1..], filled'));
    }
  }

  /** Substituting the variables into a resolved template fills in their placeholders. */
  lemma {:induction false} SubstituteResolve(lits: seq<string>, names: seq<string>, filled: map<string, string>,
                                             vars: seq<(string, string)>)
    requires |lits| == |names| + 1
    requires forall i :: 0 <= i < |lits| ==> '{' !in lits[i]
    requires forall i :: 0 <= i < |names| ==> IsName(names[i])
    requires OpenFree(filled)
    requires forall j :: 0 <= j < |vars| ==> BraceFree(vars[j].0) && '{' !in vars[j].1
    ensures Substitute(Resolve(lits, names, filled), vars) == Resolve(lits, names, Fills(vars, filled))
    decreases |vars|
  {
    if vars != [] {
      var (k, v) := vars[0];
      ReplaceResolve(lits, names, filled, k, v);
      SubstituteResolve(lits, names, if k in filled then filled else filled[k := v], vars[1..]);
    }
  }

  /**
   * When neither the PSM nor any value contains `{`, `generateUrl` fills
   * each placeholder of the template independently: `{psm}` with the PSM,
   * `{key}` with the value of its entry, any other placeholder kept as it is.
   */
  lemma GeneratedUrlResolves(lits: seq<string>, names: seq<string>, psm: string, vars: seq<(string, string)>)
    requires |lits| == |names| + 1
    requires forall i :: 0 <= i < |lits| ==> '{' !in lits[i]
    requires forall i :: 0 <= i < |names| ==> IsName(names[i])
    requires '{' !in psm
    requires forall j :: 0 <= j < |vars| ==> BraceFree(vars[j].0) && '{' !in vars[j].1
    ensures GeneratedUrl(Compose(lits, names), psm, vars) == Resolve(lits, names, Fills(vars, map[PsmName := psm]))
  {
    ResolveNothing(lits, names);
    var none: map<string, string> := map[];
    ReplaceResolve(lits, names, none, PsmName, psm);
    assert none[PsmName := psm] == map[PsmName := psm];
    SubstituteResolve(lits, names, map[PsmName := psm], vars);
  }

  // ---------------------------------------------------------------------
  // Worked examples

  /** The PSM and a selected variable are both filled in. */
  lemma GenerateUrlFillsPsmAndVariable()
    ensures GeneratedUrl("https://x/{psm}?r={Region}", "svc.a.b", [("Region", "US")]) == "https://x/svc.a.b?r=US"
  {
    var lits, names := ["https://x/", "?r=", ""], ["psm", "Region"];
    ComposesPsmAndVariable();
    GeneratedUrlResolves(lits, names, "svc.a.b", [("Region", "US")]);
    FillsPsmAndVariable();
  }

  /** The pieces of the URL template in the example above. */
  lemma ComposesPsmAndVariable()
    ensures Compose(["https://x/", "?r=", ""], ["psm", "Region"]) == "https://x/{psm}?r={Region}"
    ensures forall i :: 0 <= i < 3 ==> '{' !in ["https://x/", "?r=", ""][i]
    ensures forall i :: 0 <= i < 2 ==> IsName(["psm", "Region"][i])
  {
    PsmIsName();
    RegionIsName();
  }

  /** `Region` is made of name characters only. */
  lemma RegionIsName()
    ensures IsName("Region")
  {
    var n := "Region";
    forall j | 0 <= j < |n| ensures IsNameChar(n[j]) {
      assert n[j] in "Region";
    }
  }

  /** The example above, resolved. */
  lemma FillsPsmAndVariable()
    ensures Resolve(["https://x/", "?r=", ""], ["psm", "Region"], Fills([("Region", "US")], map[PsmName := "svc.a.b"]))
         == "https://x/svc.a.b?r=US"
  {
    assert Fills([("Region", "US")], map[PsmName := "svc.a.b"]) == map[PsmName := "svc.a.b", "Region" := "US"];
  }

  /** No variables needed: only `{psm}` is filled. */
  lemma GenerateUrlPsmOnly()
    ensures GeneratedUrl("https://x/{psm}", "svc", []) == "https://x/svc"
  {
    PsmOnlyPieces();
    GeneratedUrlResolves(["https://x/", ""], ["psm"], "svc", []);
  }

  /** The pieces of the URL template in the example above. */
  lemma PsmOnlyPieces()
    ensures Compose(["https://x/", ""], ["psm"]) == "https://x/{psm}"
    ensures forall i :: 0 <= i < 2 ==> '{' !in ["https://x/", ""][i]
    ensures forall i :: 0 <= i < 1 ==> IsName(["psm"][i])
  {
    PsmIsName();
  }

  /** A placeholder without a variable stays verbatim. */
  lemma GenerateUrlKeepsMissing()
    ensures GeneratedUrl("{a}{b}", "p", [("a", "1")]) == "1{b}"
  {
    var lits, names := ["", "", ""], ["a", "b"];
    KeepsMissingPieces();
    GeneratedUrlResolves(lits, names, "p", [("a", "1")]);
    KeepsMissingResolved();
  }

  /** The example above, resolved. */
  lemma KeepsMissingResolved()
    ensures Resolve(["", "", ""], ["a", "b"], Fills([("a", "1")], map[PsmName := "p"])) == "1{b}"
  {
    assert Fills([("a", "1")], map[PsmName := "p"]) == map[PsmName := "p", "a" := "1"];
  }

  /** The pieces of the URL template in the example above. */
  lemma KeepsMissingPieces()
    ensures Compose(["", "", ""], ["a", "b"]) == "{a}{b}"
    ensures forall i :: 0 <= i < 2 ==> IsName(["a", "b"][i])
  {
    assert IsName("a") && IsName("b");
  }

  /** `{psm}` is filled before the variables, so a variable named `psm` has nothing left to fill. */
  lemma GenerateUrlPsmFirst()
    ensures GeneratedUrl("{psm}/{psm}", "svc", [("psm", "other")]) == "svc/svc"
  {
    var lits, names := ["", "/", ""], ["psm", "psm"];
    PsmFirstPieces();
    GeneratedUrlResolves(lits, names, "svc", [("psm", "other")]);
    PsmFirstResolved();
  }

  /** The example above, resolved. */
  lemma PsmFirstResolved()
    ensures Resolve(["", "/", ""], ["psm", "psm"], Fills([("psm", "other")], map[PsmName := "svc"])) == "svc/svc"
  {
    assert Fills([("psm", "other")], map[PsmName := "svc"]) == map[PsmName := "svc"];
  }

  /** The pieces of the URL template in the example above. */
  lemma PsmFirstPieces()
    ensures Compose(["", "/", ""], ["psm", "psm"]) == "{psm}/{psm}"
    ensures forall i :: 0 <= i < 2 ==> IsName(["psm", "psm"][i])
  {
    PsmIsName();
  }

  /** `psm` is made of name characters only. */
  lemma PsmIsName()
    ensures IsName(PsmName)
  {
    var n := PsmName;
    forall j | 0 <= j < |n| ensures IsNameChar(n[j]) {
      assert n[j] in "psm";
    }
  }

  /** `psm` is left out of the extracted names. */
  lemma ExtractVariablesSkipsPsm()
    ensures ExtractVariables("https://x/{psm}?r={Region}") == ["Region"]
  {
    var lits, names := ["https://x/", "?r=", ""], ["psm", "Region"];
    ComposesPsmAndVariable();
    ExtractVariablesOfCompose(lits, names);
    SkipsPsmFiltered();
  }

  /** Of `psm` and `Region`, only `Region` is a variable. */
  lemma SkipsPsmFiltered()
    ensures Filter(IsVariable, ["psm", "Region"]) == ["Region"]
  {
    FilterCons(IsVariable, "Region", []);
    assert ["Region"] == ["Region"] + [];
    FilterCons(IsVariable, "psm", ["Region"]);
    assert ["psm", "Region"] == ["psm"] + ["Region"];
  }

  /** Repeated placeholders give repeated names, in template order. */
  lemma ExtractVariablesKeepsRepeats()
    ensures ExtractVariables("{a}-{b}-{a}") == ["a", "b", "a"]
  {
    var lits, names := ["", "-", "-", ""], ["a", "b", "a"];
    RepeatsPieces();
    ExtractVariablesOfCompose(lits, names);
    RepeatsFiltered();
  }

  /** The pieces of `{a}-{b}-{a}`. */
  lemma RepeatsPieces()
    ensures Compose(["", "-", "-", ""], ["a", "b", "a"]) == "{a}-{b}-{a}"
    ensures forall i :: 0 <= i < 3 ==> IsName(["a", "b", "a"][i])
  {
    assert IsName("a") && IsName("b");
  }

  /** None of `a`, `b`, `a` is the PSM placeholder. */
  lemma RepeatsFiltered()
    ensures Filter(IsVariable, ["a", "b", "a"]) == ["a", "b", "a"]
  {
    FilterKeepsAll(IsVariable, ["a", "b", "a"]);
  }
}
