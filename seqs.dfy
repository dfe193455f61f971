/**
 * The array methods the modelled code uses on lists: `filter`, `slice(0, n)`
 * and `Array.from(new Set(xs))`, with the facts about them that the rest of
 * the model needs.
 */
module Seqs {

  /** `r` is `s` with some elements left out, in the same order. */
  predicate IsSubseq<T(==)>(r: seq<T>, s: seq<T>)
    decreases |s|
  {
    r == [] || (s != [] && ((r[0] == s[0] && IsSubseq(r[1..], s[1..])) || IsSubseq(r, s[1..])))
  }

  /** No element occurs twice. */
  predicate NoDups<T(==)>(s: seq<T>) {
    forall i, j :: 0 <= i < j < |s| ==> s[i] != s[j]
  }

  /** `s.slice(0, n)` */
  function Take<T>(s: seq<T>, n: nat): (r: seq<T>)
    ensures |r| == if |s| < n then |s| else n
    ensures r == s[..|r|]
  {
    if |s| < n then s else s[..n]
  }

  /**
   * `s.filter(f)`: exactly the elements satisfying `f`, each as often as in
   * `s`, in their order in `s`.
   */
  function Filter<T(==,!new)>(f: T -> bool, s: seq<T>): (r: seq<T>)
    ensures |r| <= |s|
    ensures forall x :: x in r <==> x in s && f(x)
    ensures forall x :: multiset(r)[x] == if f(x) then multiset(s)[x] else 0
    ensures IsSubseq(r, s)
    decreases |s|
  {
    if s == [] then []
    else
      var rest := Filter(f, s[1..]);
      assert s == [s[0]] + s[1..];
      if f(s[0]) then
        assert ([s[0]] + rest)[1..] == rest;
        [s[0]] + rest
      else rest
  }

  /** The head of a non-empty filter result is the first element of `s` that passes. */
  lemma {:induction false} FilterHead<T(!new)>(f: T -> bool, s: seq<T>)
    requires Filter(f, s) != []
    ensures exists i :: 0 <= i < |s| && s[i] == Filter(f, s)[0] && f(s[i]) && forall j :: 0 <= j < i ==> !f(s[j])
    decreases |s|
  {
    if f(s[0]) {
      assert s[0] == Filter(f, s)[0];
    } else {
      assert Filter(f, s) == Filter(f, s[1..]);
      FilterHead(f, s[1..]);
      var k :| 0 <= k < |s[1..]| && s[1..][k] == Filter(f, s[1..])[0] && f(s[1..][k]) &&
        forall j :: 0 <= j < k ==> !f(s[1..][j]);
      forall j | 0 < j < k + 1 ensures !f(s[j]) {
        assert s[j] == s[1..][j - 1];
      }
      assert s[k + 1] == Filter(f, s)[0];
    }
  }

  /** Filtering a list with a first element: that element, if it passes, before the filtered rest. */
  lemma FilterCons<T(!new)>(f: T -> bool, x: T, s: seq<T>)
    ensures Filter(f, [x] + s) == if f(x) then [x] + Filter(f, s) else Filter(f, s)
  {
    assert ([x] + s)[1..] == s;
  }

  /** Concatenation is associative. */
  lemma AppendAssoc<T>(x: seq<T>, a: seq<T>, b: seq<T>)
    ensures x + (a + b) == x + a + b
  {
  }

  /**
   * Putting `x` in front of a subsequence of `s` that lacks it and cutting to
   * `n`: `x` first, the rest still a subsequence of `s` without `x`, and
   * anything of `others` lost only when the cut was made.
   */
  lemma TakeCons<T>(x: T, others: seq<T>, s: seq<T>, n: nat)
    requires n > 0 && IsSubseq(others, s) && x !in others
    ensures var r := Take([x] + others, n);
      && 0 < |r| <= n && r[0] == x && x !in r[1..] && IsSubseq(r[1..], s)
      && forall y :: y in others && y !in r ==> |r| == n
  {
    var r := Take([x] + others, n);
    assert r[1..] == others[..|r| - 1];
    PrefixIsSubseq(others, |r| - 1);
    SubseqTrans(r[1..], others, s);
    SubseqMembers(r[1..], others);
    assert |r| < n ==> r == [x] + others;
  }

  /** Putting a new element in front of a list without repeats and cutting it keeps it without repeats. */
  lemma TakeConsNoDups<T>(x: T, others: seq<T>, n: nat)
    requires NoDups(others) && x !in others
    ensures NoDups(Take([x] + others, n))
  {
    var r := Take([x] + others, n);
    forall i, j | 0 <= i < j < |r| ensures r[i] != r[j] {
      assert r[j] == others[j - 1];
      if i > 0 {
        assert r[i] == others[i - 1];
      }
    }
  }

  /**
   * Cutting a concatenation: only the first `n` of each part can reach the
   * first `n` of the whole.
   */
  lemma TakeAppend<T>(x: seq<T>, y: seq<T>, n: nat)
    ensures Take(x + y, n) == Take(Take(x, n) + Take(y, n), n)
  {
    var l, r := Take(x + y, n), Take(Take(x, n) + Take(y, n), n);
    assert |l| == |r|;
    forall i | 0 <= i < |l| ensures l[i] == r[i] {
      if i < |x| {
        assert l[i] == x[i] && r[i] == Take(x, n)[i];
      } else {
        assert l[i] == y[i - |x|] && r[i] == Take(y, n)[i - |x|];
      }
    }
  }

  /** Filtering distributes over concatenation. */
  lemma {:induction false} FilterAppend<T(!new)>(f: T -> bool, a: seq<T>, b: seq<T>)
    ensures Filter(f, a + b) == Filter(f, a) + Filter(f, b)
    decreases |a|
  {
    if a == [] {
      assert a + b == b;
    } else {
      var x, t := a[0], a[1..];
      assert a == [x] + t;
      assert a + b == [x] + (t + b);
      FilterAppend(f, t, b);
      FilterCons(f, x, t + b);
      FilterCons(f, x, t);
      AppendAssoc([x], Filter(f, t), Filter(f, b));
    }
  }

  /** Filtering keeps a list whose every element passes as it is. */
  lemma {:induction false} FilterKeepsAll<T(!new)>(f: T -> bool, s: seq<T>)
    requires forall x :: x in s ==> f(x)
    ensures Filter(f, s) == s
    decreases |s|
  {
    if s != [] {
      FilterKeepsAll(f, s[1..]);
    }
  }

  /** Filtering out the one element that fails drops exactly that element. */
  lemma FilterDropsOne<T(!new)>(f: T -> bool, a: seq<T>, x: T, b: seq<T>)
    requires !f(x) && (forall y :: y in a ==> f(y)) && (forall y :: y in b ==> f(y))
    ensures Filter(f, a + [x] + b) == a + b
  {
    FilterAppend(f, a + [x], b);
    FilterAppend(f, a, [x]);
    FilterKeepsAll(f, a);
    FilterKeepsAll(f, b);
    FilterCons(f, x, []);
    assert [x] + [] == [x];
    assert a + [] == a;
  }

  /** Filtering a list without duplicates gives a list without duplicates. */
  lemma {:induction false} FilterNoDups<T(!new)>(f: T -> bool, s: seq<T>)
    requires NoDups(s)
    ensures NoDups(Filter(f, s))
    decreases |s|
  {
    if s != [] {
      FilterNoDups(f, s[1..]);
      var rest := Filter(f, s[1..]);
      assert s[0] !in s[1..];
      assert s[0] !in rest;
    }
  }

  /** A prefix is a subsequence. */
  lemma {:induction false} PrefixIsSubseq<T>(s: seq<T>, n: nat)
    requires n <= |s|
    ensures IsSubseq(s[..n], s)
    decreases n
  {
    if n > 0 {
      PrefixIsSubseq(s[1..], n - 1);
      assert s[..n][1..] == s[1..][..n - 1];
    }
  }

  /** Subsequences compose. */
  lemma {:induction false} SubseqTrans<T>(a: seq<T>, b: seq<T>, c: seq<T>)
    requires IsSubseq(a, b) && IsSubseq(b, c)
    ensures IsSubseq(a, c)
    decreases |c|, |b|
  {
    if a != [] {
      if b[0] == c[0] && IsSubseq(b[1..], c[1..]) {
        if a[0] == b[0] && IsSubseq(a[1..], b[1..]) {
          SubseqTrans(a[1..], b[1..], c[1..]);
        } else {
          SubseqTrans(a, b[1..], c[1..]);
        }
      } else {
        SubseqTrans(a, b, c[1..]);
      }
    }
  }

  /** Every element of a subsequence is an element of the sequence. */
  lemma {:induction false} SubseqMembers<T>(r: seq<T>, s: seq<T>)
    requires IsSubseq(r, s)
    ensures forall x :: x in r ==> x in s
    decreases |s|
  {
    if r != [] {
      if r[0] == s[0] && IsSubseq(r[1..], s[1..]) {
        SubseqMembers(r[1..], s[1..]);
        assert r == [r[0]] + r[1..];
      } else {
        SubseqMembers(r, s[1..]);
      }
    }
  }

  /** The index of the first occurrence of `x` in `s`. */
  function FirstIndex<T(==)>(s: seq<T>, x: T): (i: nat)
    requires x in s
    ensures i < |s| && s[i] == x && x !in s[..i]
    decreases |s|
  {
    if s[0] == x then 0 else FirstIndex(s[1..], x) + 1
  }

  /** Appending elements does not move a first occurrence. */
  lemma {:induction false} FirstIndexPrefix<T>(s: seq<T>, t: seq<T>, x: T)
    requires x in s
    ensures FirstIndex(s + t, x) == FirstIndex(s, x)
    decreases |s|
  {
    if s[0] != x {
      assert (s + t)[1..] == s[1..] + t;
      FirstIndexPrefix(s[1..], t, x);
    }
  }

  /**
   * `Array.from(new Set(s))`: each distinct element once, in the order of its
   * first occurrence in `s` (a `Set` keeps insertion order and ignores an
   * element it already holds).
   */
  function Dedupe<T(==,!new)>(s: seq<T>): (r: seq<T>)
    ensures NoDups(r)
    ensures forall x :: x in r <==> x in s
    ensures forall i, j :: 0 <= i < j < |r| ==> FirstIndex(s, r[i]) < FirstIndex(s, r[j])
    decreases |s|
  {
    if s == [] then []
    else
      var p := s[..|s| - 1];
      var x := s[|s| - 1];
      var r := Dedupe(p);
      assert s == p + [x];
      forall y | y in p ensures FirstIndex(s, y) == FirstIndex(p, y) {
        FirstIndexPrefix(p, [x], y);
      }
      if x in r then r
      else
        assert FirstIndex(s, x) == |p|;
        r + [x]
  }

  /** A list without duplicates is its own deduplication. */
  lemma {:induction false} DedupeNoDups<T(!new)>(s: seq<T>)
    requires NoDups(s)
    ensures Dedupe(s) == s
    decreases |s|
  {
    if s != [] {
      var p := s[..|s| - 1];
      DedupeNoDups(p);
      assert s == p + [s[|s| - 1]];
      assert s[|s| - 1] !in p;
    }
  }
}
