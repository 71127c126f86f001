/**
 * Sequence helpers. A JavaScript `Set` keeps insertion order, so a Set that is
 * filled from a sequence and read back with `Array.from` is `Dedupe` of that
 * sequence: its distinct elements, each at its first occurrence.
 */
module Seqs {
  import opened Wrappers

  predicate NoDup<T(==)>(s: seq<T>) {
    forall i, j :: 0 <= i < j < |s| ==> s[i] != s[j]
  }

  /** Adding `x` to an insertion-ordered set: appended unless already present. */
  function AddNew<T(==)>(d: seq<T>, x: T): seq<T> {
    if x in d then d else d + [x]
  }

  function Dedupe<T(==)>(s: seq<T>): seq<T> {
    if s == [] then [] else AddNew(Dedupe(s[..|s| - 1]), s[|s| - 1])
  }

  /** The position of the first occurrence of `x` in `s`. */
  function FirstIndex<T(==)>(s: seq<T>, x: T): (k: nat)
    requires x in s
    ensures k < |s| && s[k] == x
    ensures forall j :: 0 <= j < k ==> s[j] != x
  {
    if s[0] == x then 0 else 1 + FirstIndex(s[1..], x)
  }

  lemma {:induction false} DedupeElements<T>(s: seq<T>)
    ensures NoDup(Dedupe(s))
    ensures forall x :: x in Dedupe(s) <==> x in s
  {
    if s != [] {
      var init := s[..|s| - 1];
      DedupeElements(init);
      assert forall x :: x in s <==> x in init || x == s[|s| - 1];
    }
  }

  lemma {:induction false} DedupeAt<T>(s: seq<T>, i: nat)
    requires i < |Dedupe(s)|
    ensures Dedupe(s)[i] in s
  {
    var init := s[..|s| - 1];
    var d := Dedupe(init);
    if i < |d| {
      DedupeAt(init, i);
      assert Dedupe(s)[i] == d[i];
      assert d[i] in init;
    } else {
      assert Dedupe(s)[i] == s[|s| - 1];
    }
  }

  lemma {:induction false} FirstIndexPrefix<T>(s: seq<T>, n: nat, x: T)
    requires n <= |s| && x in s[..n]
    ensures x in s && FirstIndex(s, x) == FirstIndex(s[..n], x)
  {
    assert s[..n][0] == s[0];
    if s[0] != x {
      assert s[..n][1..] == s[1..][..n - 1];
      FirstIndexPrefix(s[1..], n - 1, x);
    }
  }

  /**
   * Dedupe keeps first-seen order: an element that reaches the result earlier
   * first occurs earlier in the input.
   */
  lemma {:induction false} DedupeFirstSeenOrder<T>(s: seq<T>, i: nat, j: nat)
    requires i < j < |Dedupe(s)|
    ensures Dedupe(s)[i] in s && Dedupe(s)[j] in s
    ensures FirstIndex(s, Dedupe(s)[i]) < FirstIndex(s, Dedupe(s)[j])
  {
    DedupeElements(s);
    var init := s[..|s| - 1];
    var last := s[|s| - 1];
    var d := Dedupe(init);
    DedupeElements(init);
    if j < |d| {
      assert Dedupe(s)[i] == d[i] && Dedupe(s)[j] == d[j] && d[i] in d && d[j] in d;
      DedupeFirstSeenOrder(init, i, j);
      FirstIndexPrefix(s, |s| - 1, d[i]);
      FirstIndexPrefix(s, |s| - 1, d[j]);
    } else {
      assert Dedupe(s) == d + [last] && last !in init;
      assert Dedupe(s)[j] == last && Dedupe(s)[i] == d[i] && d[i] in d;
      DedupeAt(init, i);
      FirstIndexPrefix(s, |s| - 1, d[i]);
      assert FirstIndex(s, last) == |s| - 1;
    }
  }

  /** The insertion-ordered set of one duplicate-free sequence is that sequence. */
  lemma {:induction false} DedupeOfNoDup<T>(s: seq<T>)
    requires NoDup(s)
    ensures Dedupe(s) == s
  {
    if s != [] {
      var init := s[..|s| - 1];
      DedupeOfNoDup(init);
      assert s[|s| - 1] !in init;
      assert init + [s[|s| - 1]] == s;
    }
  }

  /** The elements of `s` for which `p` holds, in order. */
  function Filter<T>(s: seq<T>, p: T -> bool): (r: seq<T>)
    ensures |r| <= |s|
    ensures forall i :: 0 <= i < |r| ==> r[i] in s && p(r[i])
    ensures forall i :: 0 <= i < |s| && p(s[i]) ==> s[i] in r
  {
    if s == [] then [] else (if p(s[0]) then [s[0]] else []) + Filter(s[1..], p)
  }

  /** The first position whose element satisfies `p`, if there is one. */
  function FindFirst<T>(s: seq<T>, p: T -> bool): (r: Option<nat>)
    ensures r.Some? ==> r.value < |s| && p(s[r.value])
    ensures r.Some? ==> forall j :: 0 <= j < r.value ==> !p(s[j])
    ensures r.None? ==> forall j :: 0 <= j < |s| ==> !p(s[j])
  {
    if s == [] then None
    else if p(s[0]) then Some(0)
    else
      match FindFirst(s[1..], p)
      case Some(k) => Some(k + 1)
      case None => None
  }

  lemma {:induction false} FilterAppend<T>(s: seq<T>, x: T, p: T -> bool)
    ensures Filter(s + [x], p) == Filter(s, p) + (if p(x) then [x] else [])
  {
    if s != [] {
      assert (s + [x])[1..] == s[1..] + [x];
      FilterAppend(s[1..], x, p);
    } else {
      assert [x][1..] == [];
    }
  }
}
