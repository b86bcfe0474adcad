/**
 * Generic list operations the source takes from its languages' libraries:
 * Rust's `Vec::dedup` and JavaScript's `Array.prototype.indexOf`.
 */
module Sequences {

  predicate NoDuplicates<T(==)>(s: seq<T>) {
    forall i, j :: 0 <= i < j < |s| ==> s[i] != s[j]
  }

  predicate NoAdjacentDuplicates<T(==)>(s: seq<T>) {
    forall i :: 0 < i < |s| ==> s[i - 1] != s[i]
  }

  /**
   * `Vec::dedup`: every run of equal neighbours shrinks to its first element.
   * Equal elements that are not neighbours all stay.
   */
  function Dedup<T(==)>(s: seq<T>): (r: seq<T>)
    ensures |r| <= |s|
    ensures NoAdjacentDuplicates(r)
    ensures forall i :: 0 <= i < |r| ==> r[i] in s
    ensures forall i :: 0 <= i < |s| ==> s[i] in r
    ensures s != [] ==> r != [] && r[0] == s[0] && r[|r| - 1] == s[|s| - 1]
  {
    if |s| <= 1 then s
    else
      var init := Dedup(s[..|s| - 1]);
      assert forall i :: 0 <= i < |s| - 1 ==> s[i] == s[..|s| - 1][i];
      if s[|s| - 1] == s[|s| - 2] then init else init + [s[|s| - 1]]
  }

  /** On a list without equal neighbours `Dedup` changes nothing. */
  lemma {:induction false} DedupWithoutAdjacentDuplicates<T>(s: seq<T>)
    requires NoAdjacentDuplicates(s)
    ensures Dedup(s) == s
  {
    if |s| > 1 {
      DedupWithoutAdjacentDuplicates(s[..|s| - 1]);
      assert s[..|s| - 1] + [s[|s| - 1]] == s;
    }
  }

  /** Dedup keeps only consecutive-duplicate removal: separated duplicates survive. */
  lemma DedupKeepsSeparatedDuplicates<T>(a: T, b: T)
    requires a != b
    ensures Dedup([a, b, a]) == [a, b, a]
  {
    DedupWithoutAdjacentDuplicates([a, b, a]);
  }

  /** The first occurrence of every element, in order: duplicates anywhere are dropped. */
  function Distinct<T(==)>(s: seq<T>): (r: seq<T>)
    ensures |r| <= |s|
    ensures NoDuplicates(r)
    ensures forall i :: 0 <= i < |r| ==> r[i] in s
    ensures forall i :: 0 <= i < |s| ==> s[i] in r
  {
    if s == [] then []
    else
      var init := Distinct(s[..|s| - 1]);
      assert forall i :: 0 <= i < |s| - 1 ==> s[i] == s[..|s| - 1][i];
      if s[|s| - 1] in init then init else init + [s[|s| - 1]]
  }

  /** `Distinct` keeps exactly the elements of its argument. */
  lemma DistinctMembership<T>(s: seq<T>)
    ensures forall x :: x in Distinct(s) <==> x in s
  {
    var r := Distinct(s);
    forall x | x in s ensures x in r {
      var i :| 0 <= i < |s| && s[i] == x;
    }
    forall x | x in r ensures x in s {
      var i :| 0 <= i < |r| && r[i] == x;
    }
  }

  /** On a list without duplicates `Distinct` changes nothing. */
  lemma {:induction false} DistinctWithoutDuplicates<T>(s: seq<T>)
    requires NoDuplicates(s)
    ensures Distinct(s) == s
  {
    if s != [] {
      var init := s[..|s| - 1];
      DistinctWithoutDuplicates(init);
      assert s[|s| - 1] !in init;
      assert init + [s[|s| - 1]] == s;
    }
  }

  /** The first position whose element `p` accepts, or -1. */
  function FirstWhere<T>(s: seq<T>, p: T -> bool): (k: int)
    ensures -1 <= k < |s|
    ensures k >= 0 ==> p(s[k])
    ensures forall j :: 0 <= j < |s| && (k == -1 || j < k) ==> !p(s[j])
  {
    if s == [] then -1
    else if p(s[0]) then 0
    else
      var k := FirstWhere(s[1..], p);
      assert forall j :: 1 <= j < |s| ==> s[j] == s[1..][j - 1];
      if k == -1 then -1 else k + 1
  }

  /** How often `x` occurs in `s`. */
  function Count<T(==)>(s: seq<T>, x: T): (n: nat)
    ensures n <= |s|
    ensures n > 0 <==> x in s
  {
    if s == [] then 0
    else
      assert x in s <==> x in s[..|s| - 1] || x == s[|s| - 1];
      Count(s[..|s| - 1], x) + (if s[|s| - 1] == x then 1 else 0)
  }

  /** `n` copies of `x`. */
  function Repeat<T>(x: T, n: nat): (r: seq<T>)
    ensures |r| == n
    ensures forall i :: 0 <= i < n ==> r[i] == x
  {
    if n == 0 then [] else Repeat(x, n - 1) + [x]
  }

  /** `indexOf`: the first position of `x` in `s`, or -1 if it does not occur. */
  function IndexOf<T(==)>(s: seq<T>, x: T): (r: int)
    ensures -1 <= r < |s|
    ensures r == -1 <==> x !in s
    ensures r >= 0 ==> s[r] == x && x !in s[..r]
  {
    if s == [] then -1
    else if s[0] == x then 0
    else
      var k := IndexOf(s[1..], x);
      if k == -1 then -1
      else
        assert s[1..][..k] == s[1..k + 1];
        assert s[..k + 1] == [s[0]] + s[1..k + 1];
        k + 1
  }
}
