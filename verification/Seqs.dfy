/**
 * Sequence operations the quote store takes from JavaScript's `Array`:
 * `filter` (with the positions it keeps) and de-duplication through a `Set`.
 */
module Seqs {

  ghost predicate NoDuplicates<T>(s: seq<T>) {
    forall i, j :: 0 <= i < j < |s| ==> s[i] != s[j]
  }

  /** Prepending an element not yet present keeps a list free of repeats. */
  lemma ConsNoDuplicates<T>(x: T, s: seq<T>)
    ensures NoDuplicates(s) && x !in s ==> NoDuplicates([x] + s)
  {
    if NoDuplicates(s) && x !in s {
      var r := [x] + s;
      forall i, j | 0 <= i < j < |r| ensures r[i] != r[j] {
        assert r[j] == s[j - 1];
        if i > 0 { assert r[i] == s[i - 1]; }
      }
    }
  }

  predicate StrictlyIncreasing(idx: seq<nat>) {
    forall i, j :: 0 <= i < j < |idx| ==> idx[i] < idx[j]
  }

  /** `r` lists the elements of `s` at the positions `idx`, in increasing position order. */
  ghost predicate PicksAt<T>(r: seq<T>, s: seq<T>, idx: seq<nat>) {
    && |idx| == |r|
    && StrictlyIncreasing(idx)
    && forall k :: 0 <= k < |idx| ==> idx[k] < |s| && r[k] == s[idx[k]]
  }

  /** `Array.prototype.filter`. */
  function Filter<T>(s: seq<T>, p: T -> bool): (r: seq<T>)
    ensures |r| <= |s|
    ensures forall x :: x in r ==> x in s && p(x)
    ensures forall x :: x in s && p(x) ==> x in r
  {
    if s == [] then []
    else
      var n := |s| - 1;
      Filter(s[..n], p) + (if p(s[n]) then [s[n]] else [])
  }

  /** Filtering one more element appends it exactly when it is accepted. */
  lemma FilterSnoc<T>(s: seq<T>, x: T, p: T -> bool)
    ensures Filter(s + [x], p) == Filter(s, p) + (if p(x) then [x] else [])
  {
    assert (s + [x])[..|s|] == s;
  }

  /** `filter` keeps nothing when it accepts no element. */
  lemma {:induction false} FilterRejectsAll<T>(s: seq<T>, p: T -> bool)
    requires forall i :: 0 <= i < |s| ==> !p(s[i])
    ensures Filter(s, p) == []
  {
    if s != [] {
      FilterRejectsAll(s[..|s| - 1], p);
    }
  }

  /** The positions of `s` whose elements `p` accepts, in increasing order. */
  function KeptPositions<T>(s: seq<T>, p: T -> bool): (idx: seq<nat>)
    ensures StrictlyIncreasing(idx)
    ensures forall k :: 0 <= k < |idx| ==> idx[k] < |s| && p(s[idx[k]])
    ensures forall i :: 0 <= i < |s| && p(s[i]) ==> i in idx
  {
    if s == [] then []
    else
      var n := |s| - 1;
      var front := KeptPositions(s[..n], p);
      assert forall i :: 0 <= i < n && p(s[i]) ==> p(s[..n][i]);
      front + (if p(s[n]) then [n] else [])
  }

  /** `filter` keeps exactly the accepted elements, in their original order. */
  lemma {:induction false} FilterPicksKeptPositions<T>(s: seq<T>, p: T -> bool)
    ensures PicksAt(Filter(s, p), s, KeptPositions(s, p))
  {
    if s != [] {
      var n := |s| - 1;
      FilterPicksKeptPositions(s[..n], p);
      var r, idx := Filter(s, p), KeptPositions(s, p);
      var r', idx' := Filter(s[..n], p), KeptPositions(s[..n], p);
      assert r == r' + (if p(s[n]) then [s[n]] else []);
      assert idx == idx' + (if p(s[n]) then [n] else []);
      forall k | 0 <= k < |idx|
        ensures idx[k] < |s| && r[k] == s[idx[k]]
      {
        if k < |idx'| {
          assert r[k] == r'[k] == s[..n][idx'[k]];
        }
      }
    }
  }

  /** Position `i` holds the first occurrence of its element in `s`. */
  ghost predicate FirstAt<T>(s: seq<T>, i: int) {
    0 <= i < |s| && forall j :: 0 <= j < i ==> s[j] != s[i]
  }

  /** Cutting off the end of a sequence does not move first occurrences before the cut. */
  lemma FirstAtPrefix<T>(s: seq<T>, n: nat, i: int)
    requires 0 <= i < n <= |s|
    ensures FirstAt(s[..n], i) <==> FirstAt(s, i)
  {
    assert forall j :: 0 <= j <= i ==> s[..n][j] == s[j];
  }

  /** The positions at which an element of `s` occurs for the first time, in increasing order. */
  function FirstPositions<T(==)>(s: seq<T>): (idx: seq<nat>)
    ensures StrictlyIncreasing(idx)
    ensures forall k :: 0 <= k < |idx| ==> FirstAt(s, idx[k])
    ensures forall i :: FirstAt(s, i) ==> i in idx
  {
    if s == [] then []
    else
      var n := |s| - 1;
      var front := FirstPositions(s[..n]);
      assert forall i :: 0 <= i < n ==> (FirstAt(s[..n], i) <==> FirstAt(s, i)) by {
        forall i | 0 <= i < n { FirstAtPrefix(s, n, i); }
      }
      assert s[n] in s[..n] <==> !FirstAt(s, n);
      front + (if s[n] in s[..n] then [] else [n])
  }

  /** `Array.from(new Set(s))`: each element once, at the place it first occurs. */
  function Dedup<T(==, !new)>(s: seq<T>): (r: seq<T>)
    ensures NoDuplicates(r)
    ensures forall x :: x in r <==> x in s
  {
    if s == [] then []
    else
      var n := |s| - 1;
      var front := Dedup(s[..n]);
      assert forall x :: x in s <==> x in s[..n] || x == s[n];
      if s[n] in front then front else front + [s[n]]
  }

  /** De-duplication keeps exactly the first occurrences, in their original order. */
  lemma {:induction false} DedupKeepsFirstOccurrences<T(!new)>(s: seq<T>)
    ensures PicksAt(Dedup(s), s, FirstPositions(s))
  {
    if s != [] {
      var n := |s| - 1;
      DedupKeepsFirstOccurrences(s[..n]);
      var r, idx := Dedup(s), FirstPositions(s);
      var r', idx' := Dedup(s[..n]), FirstPositions(s[..n]);
      assert s[n] in r' <==> s[n] in s[..n];
      assert r == r' + (if s[n] in s[..n] then [] else [s[n]]);
      assert idx == idx' + (if s[n] in s[..n] then [] else [n]);
      forall k | 0 <= k < |idx|
        ensures idx[k] < |s| && r[k] == s[idx[k]]
      {
        if k < |idx'| {
          assert r[k] == r'[k] == s[..n][idx'[k]];
        }
      }
    }
  }
}
