/**
 * A code-point order standing in for the order `Array.prototype.sort` uses
 * on strings when given no comparator: character-by-character comparison, a
 * proper prefix first. JavaScript compares UTF-16 code units; the two orders
 * differ only for characters outside the Basic Multilingual Plane.
 */
module Lex {
  import opened Seqs

  /** `a` sorts no later than `b`. */
  predicate Below(a: string, b: string) {
    if a == [] then true
    else if b == [] then false
    else if a[0] != b[0] then a[0] < b[0]
    else Below(a[1..], b[1..])
  }

  lemma {:induction false} BelowReflexive(a: string)
    ensures Below(a, a)
  {
    if a != [] {
      BelowReflexive(a[1..]);
    }
  }

  lemma {:induction false} BelowTotal(a: string, b: string)
    ensures Below(a, b) || Below(b, a)
  {
    if a != [] && b != [] && a[0] == b[0] {
      BelowTotal(a[1..], b[1..]);
    }
  }

  lemma {:induction false} BelowAntisymmetric(a: string, b: string)
    requires Below(a, b) && Below(b, a)
    ensures a == b
  {
    if a != [] && b != [] {
      BelowAntisymmetric(a[1..], b[1..]);
      assert a == [a[0]] + a[1..];
      assert b == [b[0]] + b[1..];
    }
  }

  lemma {:induction false} BelowTransitive(a: string, b: string, c: string)
    requires Below(a, b) && Below(b, c)
    ensures Below(a, c)
  {
    if a != [] && b != [] && c != [] && a[0] == b[0] && b[0] == c[0] {
      BelowTransitive(a[1..], b[1..], c[1..]);
    }
  }

  ghost predicate Sorted(s: seq<string>) {
    forall i, j :: 0 <= i < j < |s| ==> Below(s[i], s[j])
  }

  /** Places `x` in front of the first element it sorts below. */
  function Insert(x: string, s: seq<string>): (r: seq<string>)
    requires Sorted(s)
    ensures Sorted(r)
    ensures multiset(r) == multiset(s) + multiset{x}
    ensures forall y :: y in r <==> y == x || y in s
    ensures NoDuplicates(s) && x !in s ==> NoDuplicates(r)
  {
    if s == [] then [x]
    else if Below(x, s[0]) then
      FrontBelowAll(x, s);
      ConsNoDuplicates(x, s);
      [x] + s
    else
      BelowTotal(x, s[0]);
      var t := Insert(x, s[1..]);
      HeadBelowAll(s, x, t);
      assert s == [s[0]] + s[1..];
      assert NoDuplicates(s) ==> s[0] !in s[1..];
      ConsNoDuplicates(s[0], t);
      [s[0]] + t
  }

  /** An element below the head of a sorted list may go in front of it. */
  lemma FrontBelowAll(x: string, s: seq<string>)
    requires Sorted(s) && s != [] && Below(x, s[0])
    ensures Sorted([x] + s)
  {
    forall j | 0 <= j < |s| ensures Below(x, s[j]) {
      if j > 0 { BelowTransitive(x, s[0], s[j]); }
    }
  }

  /** The head of a sorted list may stay in front of a sorted list built from its tail and `x`. */
  lemma HeadBelowAll(s: seq<string>, x: string, t: seq<string>)
    requires Sorted(s) && s != [] && Below(s[0], x) && Sorted(t)
    requires forall y :: y in t ==> y == x || y in s[1..]
    ensures Sorted([s[0]] + t)
  {
    forall j | 0 <= j < |t| ensures Below(s[0], t[j]) {
      assert t[j] in t;
      if t[j] != x {
        var k :| 0 <= k < |s[1..]| && s[1..][k] == t[j];
        assert s[k + 1] == t[j];
      }
    }
    var r := [s[0]] + t;
    forall i, j | 0 <= i < j < |r| ensures Below(r[i], r[j]) {
      if i > 0 { assert r[i] == t[i - 1] && r[j] == t[j - 1]; }
    }
  }

  /** Insertion sort: a sorted permutation of `s`. */
  function Sort(s: seq<string>): (r: seq<string>)
    ensures Sorted(r)
    ensures multiset(r) == multiset(s)
    ensures forall y :: y in r <==> y in s
    ensures NoDuplicates(s) ==> NoDuplicates(r)
  {
    if s == [] then []
    else
      assert s == [s[0]] + s[1..];
      Insert(s[0], Sort(s[1..]))
  }
}
