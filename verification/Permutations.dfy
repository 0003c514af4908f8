/** Permutations, multiset sums and selections of sequences, and sequences without repetitions. */
module Permutations {
  predicate Distinct<T(==)>(s: seq<T>) {
    forall i, j :: 0 <= i < j < |s| ==> s[i] != s[j]
  }

  lemma Regroup<T>(a: seq<T>, b: seq<T>, c: seq<T>)
    ensures a + b + c == a + (b + c)
  {
  }

  lemma RegroupFour<T>(a: seq<T>, b: seq<T>, c: seq<T>, d: seq<T>)
    ensures a + b + c + d == a + (b + c + d)
  {
  }

  /** Two positions of a permutation come from two distinct positions of the original. */
  lemma TwoOccurrences<T>(a: seq<T>, b: seq<T>, i: nat, j: nat)
    requires multiset(a) == multiset(b) && i < j < |b|
    ensures exists k, l :: 0 <= k < |a| && 0 <= l < |a| && k != l && a[k] == b[i] && a[l] == b[j]
  {
    assert b[i] in multiset(b) && b[i] in a;
    var k :| 0 <= k < |a| && a[k] == b[i];
    RemoveAt(a, k);
    RemoveAt(b, i);
    var without := a[..k] + a[k + 1..];
    var rest := b[..i] + b[i + 1..];
    assert rest[j - 1] == b[j];
    assert b[j] in multiset(rest) && b[j] in without;
    var m :| 0 <= m < |without| && without[m] == b[j];
    var l := if m < k then m else m + 1;
    assert a[l] == b[j];
  }

  lemma RemoveAt<T>(s: seq<T>, k: nat)
    requires k < |s|
    ensures multiset(s[..k] + s[k + 1..]) == multiset(s) - multiset{s[k]}
  {
    assert s == s[..k] + ([s[k]] + s[k + 1..]);
  }

  lemma TailsPermute<T>(a: seq<T>, b: seq<T>)
    requires a != [] && b != [] && a[0] == b[0] && multiset(a) == multiset(b)
    ensures multiset(a[1..]) == multiset(b[1..])
  {
    assert a == [a[0]] + a[1..] && b == [b[0]] + b[1..];
    assert multiset(a[1..]) == multiset(a) - multiset{a[0]};
  }

  /** Sums of sums, regrouped. */
  lemma Interchange<T>(x: multiset<T>, xa: multiset<T>, xb: multiset<T>, y: multiset<T>, ya: multiset<T>,
      yb: multiset<T>)
    requires x == xa + xb && y == ya + yb
    ensures x + y == (xa + ya) + (xb + yb)
  {
  }

  /** Moving one summand across. */
  lemma Shift<T>(x: multiset<T>, y: multiset<T>, z: multiset<T>, total: multiset<T>)
    requires x + (y + z) == total
    ensures (x + z) + y == total
  {
  }

  /** The elements that satisfy `p`, in order. */
  function Filter<T>(s: seq<T>, p: T -> bool): seq<T> {
    if s == [] then [] else Filter(s[..|s| - 1], p) + (if p(s[|s| - 1]) then [s[|s| - 1]] else [])
  }

  lemma FilterSnoc<T>(s: seq<T>, p: T -> bool, x: T)
    ensures Filter(s + [x], p) == Filter(s, p) + (if p(x) then [x] else [])
  {
    assert (s + [x])[..|s|] == s;
  }

  lemma {:induction false} FilterSatisfies<T>(s: seq<T>, p: T -> bool)
    ensures forall i :: 0 <= i < |Filter(s, p)| ==> p(Filter(s, p)[i])
  {
    if s != [] {
      FilterSatisfies(s[..|s| - 1], p);
    }
  }

  lemma TailOfSum<T>(a: seq<T>, b: seq<T>)
    requires a != []
    ensures (a + b)[0] == a[0] && (a + b)[1..] == a[1..] + b
  {
  }
}
