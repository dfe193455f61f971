/**
 * The string primitives of JavaScript that the modelled code relies on:
 * `String.prototype.replace` with a global pattern and with a plain string
 * pattern, `split` on a one-character separator, `trim`, `toLowerCase` and
 * `includes`. Strings are sequences of characters.
 */
module Strings {
  import Seqs

  /** `pat` occurs in `s` starting at index `i`. */
  predicate OccursAt(s: string, pat: string, i: nat) {
    i + |pat| <= |s| && s[i..i + |pat|] == pat
  }

  /** `s.includes(pat)` */
  predicate Occurs(s: string, pat: string) {
    exists i: nat :: i <= |s| && OccursAt(s, pat, i)
  }

  /**
   * `s.replace(/pat/g, rep)` for a pattern that matches exactly the literal
   * `pat` and a replacement without `$` patterns: scan left to right, replace
   * each match, resume after it (matches never overlap).
   */
  function ReplaceAll(s: string, pat: string, rep: string): string
    requires pat != []
    decreases |s|
  {
    if |s| < |pat| then s
    else if s[..|pat|] == pat then rep + ReplaceAll(s[|pat|..], pat, rep)
    else [s[0]] + ReplaceAll(s[1..], pat, rep)
  }

  /** `s.replace(pat, rep)` with a string pattern: only the first occurrence. */
  function ReplaceFirst(s: string, pat: string, rep: string): string
    requires pat != []
    decreases |s|
  {
    if |s| < |pat| then s
    else if s[..|pat|] == pat then rep + s[|pat|..]
    else [s[0]] + ReplaceFirst(s[1..], pat, rep)
  }

  /** The index of the first occurrence of `pat` in `s`, if any. */
  function IndexOf(s: string, pat: string): (r: int)
    ensures -1 <= r <= |s|
    ensures r >= 0 ==> OccursAt(s, pat, r)
    ensures r >= 0 ==> forall j: nat :: j < r ==> !OccursAt(s, pat, j)
    ensures r < 0 ==> !Occurs(s, pat)
    decreases |s|
  {
    if |s| < |pat| then
      assert forall j: nat :: !OccursAt(s, pat, j);
      -1
    else if s[..|pat|] == pat then 0
    else
      var k := IndexOf(s[1..], pat);
      OccursShift(s, pat);
      assert !OccursAt(s, pat, 0);
      assert forall j: nat :: 0 < j ==> (OccursAt(s, pat, j) <==> OccursAt(s[1..], pat, j - 1));
      if k < 0 then -1 else k + 1
  }

  /** Occurrences in `s[1..]` are the occurrences in `s` shifted by one. */
  lemma OccursShift(s: string, pat: string)
    requires |s| > 0
    ensures forall j: nat :: OccursAt(s[1..], pat, j) <==> OccursAt(s, pat, j + 1)
  {
    forall j: nat
      ensures OccursAt(s[1..], pat, j) <==> OccursAt(s, pat, j + 1)
    {
      if j + |pat| <= |s| - 1 {
        assert s[1..][j..j + |pat|] == s[j + 1..j + 1 + |pat|];
      }
    }
  }

  /** `pat` occurs where it is placed. */
  lemma OccursInMiddle(a: string, pat: string, b: string)
    ensures OccursAt(a + pat + b, pat, |a|)
  {
    assert (a + pat + b)[|a|..|a| + |pat|] == pat;
  }

  /** Replacing with a pattern that does not occur changes nothing. */
  lemma {:induction false} ReplaceAllAbsent(s: string, pat: string, rep: string)
    requires pat != []
    requires !Occurs(s, pat)
    ensures ReplaceAll(s, pat, rep) == s
    decreases |s|
  {
    if |s| >= |pat| {
      assert !OccursAt(s, pat, 0);
      OccursShift(s, pat);
      ReplaceAllAbsent(s[1..], pat, rep);
    }
  }

  /**
   * `ReplaceFirst` splices `rep` in place of the first occurrence of `pat`,
   * and leaves the string unchanged when `pat` does not occur.
   */
  lemma {:induction false} ReplaceFirstSplices(s: string, pat: string, rep: string)
    requires pat != []
    ensures IndexOf(s, pat) < 0 ==> ReplaceFirst(s, pat, rep) == s
    ensures IndexOf(s, pat) >= 0 ==>
      ReplaceFirst(s, pat, rep) == s[..IndexOf(s, pat)] + rep + s[IndexOf(s, pat) + |pat|..]
    decreases |s|
  {
    if |s| < |pat| {
      TooShortToMatch(s, pat, rep);
    } else if s[..|pat|] == pat {
      SpliceAtStart(s, pat, rep);
    } else {
      ReplaceFirstSplices(s[1..], pat, rep);
      var k := IndexOf(s[1..], pat);
      if k >= 0 {
        SpliceFurther(s, pat, rep, k);
      } else {
        SearchFurther(s, pat, rep);
      }
    }
  }

  /** A string shorter than the pattern holds no occurrence and is left as it is. */
  lemma TooShortToMatch(s: string, pat: string, rep: string)
    requires pat != [] && |s| < |pat|
    ensures IndexOf(s, pat) < 0 && ReplaceFirst(s, pat, rep) == s
  {
  }

  /** An occurrence at the start is the first one, and it is replaced there. */
  lemma SpliceAtStart(s: string, pat: string, rep: string)
    requires pat != [] && |s| >= |pat| && s[..|pat|] == pat
    ensures IndexOf(s, pat) == 0 && ReplaceFirst(s, pat, rep) == s[..0] + rep + s[0 + |pat|..]
  {
    assert s[..0] + rep == rep;
  }

  /** An occurrence found after a first character that does not start a match is spliced one place further along. */
  lemma SpliceFurther(s: string, pat: string, rep: string, k: nat)
    requires pat != [] && |s| >= |pat| && s[..|pat|] != pat
    requires IndexOf(s[1..], pat) == k
    requires ReplaceFirst(s[1..], pat, rep) == s[1..][..k] + rep + s[1..][k + |pat|..]
    ensures IndexOf(s, pat) == k + 1
    ensures ReplaceFirst(s, pat, rep) == s[..k + 1] + rep + s[k + 1 + |pat|..]
  {
    FirstStep(s, pat, rep);
    SpliceAfterHead(s, k, pat, rep);
  }

  /** No occurrence after a first character that does not start a match: nothing to replace. */
  lemma SearchFurther(s: string, pat: string, rep: string)
    requires pat != [] && |s| >= |pat| && s[..|pat|] != pat
    requires IndexOf(s[1..], pat) < 0 && ReplaceFirst(s[1..], pat, rep) == s[1..]
    ensures IndexOf(s, pat) < 0 && ReplaceFirst(s, pat, rep) == s
  {
    FirstStep(s, pat, rep);
    assert [s[0]] + s[1..] == s;
  }

  /** When `pat` does not start `s`, both the search and the replacement move on by one character. */
  lemma FirstStep(s: string, pat: string, rep: string)
    requires pat != [] && |s| >= |pat| && s[..|pat|] != pat
    ensures ReplaceFirst(s, pat, rep) == [s[0]] + ReplaceFirst(s[1..], pat, rep)
    ensures IndexOf(s, pat) == if IndexOf(s[1..], pat) < 0 then -1 else IndexOf(s[1..], pat) + 1
  {
  }

  /** Splicing into the tail after the first character is splicing one place further along. */
  lemma SpliceAfterHead(s: string, k: nat, pat: string, rep: string)
    requires 0 < |s| && k + |pat| < |s|
    ensures [s[0]] + (s[1..][..k] + rep + s[1..][k + |pat|..]) == s[..k + 1] + rep + s[k + 1 + |pat|..]
  {
    assert s[..k + 1] == [s[0]] + s[1..][..k];
    assert s[k + 1 + |pat|..] == s[1..][k + |pat|..];
  }

  // ---------------------------------------------------------------------
  // split / join

  /** `s.split(sep)` for a one-character separator. */
  function Split(s: string, sep: char): (parts: seq<string>)
    ensures |parts| >= 1
    decreases |s|
  {
    if s == [] then [[]]
    else
      var rest := Split(s[1..], sep);
      if s[0] == sep then [[]] + rest else [[s[0]] + rest[0]] + rest[1..]
  }

  /** `parts.join(sep)` */
  function Join(parts: seq<string>, sep: char): string
    requires |parts| >= 1
    decreases |parts|
  {
    if |parts| == 1 then parts[0] else parts[0] + [sep] + Join(parts[1..], sep)
  }

  /** Splitting loses nothing: joining the parts back gives the input. */
  lemma {:induction false} SplitJoin(s: string, sep: char)
    ensures Join(Split(s, sep), sep) == s
    decreases |s|
  {
    if s != [] {
      var rest := Split(s[1..], sep);
      SplitJoin(s[1..], sep);
      if s[0] != sep {
        JoinExtendsHead(s[0], rest, sep);
      } else {
        JoinEmptyHead(rest, sep);
      }
      assert [s[0]] + s[1..] == s;
    }
  }

  /** Putting a character in front of the first part puts it in front of the join. */
  lemma JoinExtendsHead(c: char, parts: seq<string>, sep: char)
    requires |parts| >= 1
    ensures Join([[c] + parts[0]] + parts[1..], sep) == [c] + Join(parts, sep)
  {
    var q := [[c] + parts[0]] + parts[1..];
    if |parts| > 1 {
      assert q[1..] == parts[1..];
      Seqs.AppendAssoc([c], parts[0], [sep] + Join(parts[1..], sep));
    }
  }

  /** An empty first part contributes only its separator. */
  lemma JoinEmptyHead(parts: seq<string>, sep: char)
    requires |parts| >= 1
    ensures Join([[]] + parts, sep) == [sep] + Join(parts, sep)
  {
    assert ([[]] + parts)[1..] == parts;
  }

  /** No part of a split holds the separator. */
  lemma {:induction false} SplitPartsFree(s: string, sep: char)
    ensures forall i :: 0 <= i < |Split(s, sep)| ==> sep !in Split(s, sep)[i]
    decreases |s|
  {
    if s != [] {
      var rest := Split(s[1..], sep);
      SplitPartsFree(s[1..], sep);
      var parts := Split(s, sep);
      if s[0] != sep {
        assert parts == [[s[0]] + rest[0]] + rest[1..];
        forall i | 0 <= i < |parts| ensures sep !in parts[i] {
          if i > 0 { assert parts[i] == rest[i]; }
        }
      } else {
        assert parts == [[]] + rest;
        forall i | 0 <= i < |parts| ensures sep !in parts[i] {
          if i > 0 { assert parts[i] == rest[i - 1]; }
        }
      }
    }
  }

  /** Splitting text that starts with a separator-free run extends the first part by that run. */
  lemma {:induction false} SplitPrefix(a: string, t: string, sep: char)
    requires sep !in a
    ensures Split(a + t, sep) == [a + Split(t, sep)[0]] + Split(t, sep)[1..]
    decreases |a|
  {
    if a != [] {
      SplitPrefix(a[1..], t, sep);
      var p := Split(t, sep);
      assert a == [a[0]] + a[1..];
      Seqs.AppendAssoc([a[0]], a[1..], t);
      SplitCons(a[0], a[1..] + t, sep);
      Seqs.AppendAssoc([a[0]], a[1..], p[0]);
    } else {
      var p := Split(t, sep);
      assert a + t == t && a + p[0] == p[0];
      assert [p[0]] + p[1..] == p;
    }
  }

  /** A first character other than the separator starts the first part. */
  lemma SplitCons(c: char, u: string, sep: char)
    requires c != sep
    ensures Split([c] + u, sep) == [[c] + Split(u, sep)[0]] + Split(u, sep)[1..]
  {
    assert ([c] + u)[1..] == u;
  }

  /** Joining separator-free parts and splitting again gives the parts back. */
  lemma {:induction false} SplitOfJoin(parts: seq<string>, sep: char)
    requires |parts| >= 1
    requires forall i :: 0 <= i < |parts| ==> sep !in parts[i]
    ensures Split(Join(parts, sep), sep) == parts
    decreases |parts|
  {
    if |parts| == 1 {
      SplitPrefix(parts[0], [], sep);
      assert Split([], sep) == [[]];
      assert parts[0] + [] == parts[0];
      assert parts == [parts[0]];
    } else {
      SplitOfJoin(parts[1..], sep);
      var rest := Join(parts[1..], sep);
      SplitPrefix(parts[0], [sep] + rest, sep);
      assert parts[0] + [sep] + rest == parts[0] + ([sep] + rest);
      assert ([sep] + rest)[1..] == rest;
      var t := Split([sep] + rest, sep);
      assert t == [[]] + parts[1..];
      assert t[0] == [] && t[1..] == parts[1..] && parts[0] + [] == parts[0];
      assert Join(parts, sep) == parts[0] + [sep] + rest;
      assert parts == [parts[0]] + parts[1..];
    }
  }

  // ---------------------------------------------------------------------
  // trim and toLowerCase

  /**
   * The characters `String.prototype.trim` removes: the WhiteSpace and
   * LineTerminator code points of ECMAScript (section 12.2 and 12.3 of
   * ECMA-262), with the space separators of current Unicode.
   */
  predicate IsTrimmable(c: char) {
    c == '\t' || c == '\n' || c == '\U{000B}' || c == '\U{000C}' || c == '\r' || c == ' '
    || c == '\U{00A0}' || c == '\U{1680}' || ('\U{2000}' <= c <= '\U{200A}')
    || c == '\U{2028}' || c == '\U{2029}' || c == '\U{202F}' || c == '\U{205F}'
    || c == '\U{3000}' || c == '\U{FEFF}'
  }

  function TrimStart(s: string): (r: string)
    ensures |r| <= |s| && r == s[|s| - |r|..]
    ensures r != [] ==> !IsTrimmable(r[0])
    ensures forall i :: 0 <= i < |s| - |r| ==> IsTrimmable(s[i])
    decreases |s|
  {
    if s != [] && IsTrimmable(s[0]) then TrimStart(s[1..]) else s
  }

  function TrimEnd(s: string): (r: string)
    ensures |r| <= |s| && r == s[..|r|]
    ensures r != [] ==> !IsTrimmable(r[|r| - 1])
    ensures forall i :: |r| <= i < |s| ==> IsTrimmable(s[i])
    decreases |s|
  {
    if s != [] && IsTrimmable(s[|s| - 1]) then TrimEnd(s[..|s| - 1]) else s
  }

  /** `s.trim()` */
  function Trim(s: string): string {
    TrimEnd(TrimStart(s))
  }

  /** A trimmed string starts and ends with a kept character, so trimming it again changes nothing. */
  lemma TrimIdempotent(s: string)
    ensures Trim(Trim(s)) == Trim(s)
    ensures Trim(s) != [] ==> !IsTrimmable(Trim(s)[0]) && !IsTrimmable(Trim(s)[|Trim(s)| - 1])
  {
    var t := Trim(s);
    if t != [] {
      assert t[0] == TrimStart(s)[0];
      assert TrimStart(t) == t;
    }
  }

  /** A string is its own trim exactly when it is empty or starts and ends with a kept character. */
  lemma TrimmedIff(s: string)
    ensures Trim(s) == s <==> s == [] || (!IsTrimmable(s[0]) && !IsTrimmable(s[|s| - 1]))
  {
    if s != [] && !IsTrimmable(s[0]) && !IsTrimmable(s[|s| - 1]) {
      assert TrimStart(s) == s;
      assert TrimEnd(s) == s;
    }
    if s != [] && Trim(s) == s {
      TrimIdempotent(s);
    }
  }

  /** `c.toLowerCase()` for ASCII letters; every other character is kept. */
  function LowerChar(c: char): char {
    if 'A' <= c <= 'Z' then (c as int + 32) as char else c
  }

  /** `s.toLowerCase()`, ASCII letters only. */
  function ToLower(s: string): (r: string)
    ensures |r| == |s|
    ensures forall i :: 0 <= i < |s| ==> r[i] == LowerChar(s[i])
  {
    seq(|s|, i requires 0 <= i < |s| => LowerChar(s[i]))
  }
}
