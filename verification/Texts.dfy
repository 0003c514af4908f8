/** Splitting and joining text at a separator byte, as `str::split` and `join` do. */
module Texts {
  /** The first position at or after `from` that holds `c`, or the length of `s`. */
  function Find(s: string, c: char, from: nat): (i: nat)
    requires from <= |s|
    ensures from <= i <= |s|
    ensures forall j :: from <= j < i ==> s[j] != c
    ensures i < |s| ==> s[i] == c
    decreases |s| - from
  {
    if from == |s| || s[from] == c then from else Find(s, c, from + 1)
  }

  /** The pieces of `s[from..]` between separators; at least one piece. */
  function SplitFrom(s: string, c: char, from: nat): (r: seq<string>)
    requires from <= |s|
    ensures |r| >= 1
    decreases |s| - from
  {
    var end := Find(s, c, from);
    if end == |s| then [s[from..end]] else [s[from..end]] + SplitFrom(s, c, end + 1)
  }

  function Split(s: string, c: char): (r: seq<string>)
    ensures |r| >= 1
  {
    SplitFrom(s, c, 0)
  }

  function Join(parts: seq<string>, c: char): string
    requires parts != []
  {
    if |parts| == 1 then parts[0] else parts[0] + [c] + Join(parts[1..], c)
  }

  predicate Free(parts: seq<string>, c: char) {
    forall i :: 0 <= i < |parts| ==> c !in parts[i]
  }

  lemma {:induction false} SplitFromIsFree(s: string, c: char, from: nat)
    requires from <= |s|
    ensures Free(SplitFrom(s, c, from), c)
    decreases |s| - from
  {
    var end := Find(s, c, from);
    if end < |s| {
      SplitFromIsFree(s, c, end + 1);
    }
  }

  lemma {:induction false} JoinSplitFrom(s: string, c: char, from: nat)
    requires from <= |s|
    ensures Join(SplitFrom(s, c, from), c) == s[from..]
    decreases |s| - from
  {
    var end := Find(s, c, from);
    if end < |s| {
      JoinSplitFrom(s, c, end + 1);
      JoinCons(s[from..end], SplitFrom(s, c, end + 1), c);
      CutAt(s, from, end);
    }
  }

  lemma CutAt(s: string, from: nat, end: nat)
    requires from <= end < |s|
    ensures s[from..] == s[from..end] + [s[end]] + s[end + 1..]
  {
  }

  lemma JoinCons(p: string, rest: seq<string>, c: char)
    requires rest != []
    ensures Join([p] + rest, c) == p + [c] + Join(rest, c)
  {
    assert ([p] + rest)[1..] == rest;
  }

  /** Joining undoes splitting. */
  lemma JoinSplit(s: string, c: char)
    ensures Join(Split(s, c), c) == s && Free(Split(s, c), c)
  {
    SplitFromIsFree(s, c, 0);
    JoinSplitFrom(s, c, 0);
    assert s[0..] == s;
  }

  /** Only the suffix matters. */
  lemma {:induction false} SplitShift(p: string, s: string, c: char, from: nat)
    requires from <= |s|
    ensures SplitFrom(p + s, c, |p| + from) == SplitFrom(s, c, from)
    decreases |s| - from
  {
    FindShift(p, s, c, from);
    var end := Find(s, c, from);
    assert (p + s)[|p| + from..|p| + end] == s[from..end];
    if end < |s| {
      SplitShift(p, s, c, end + 1);
    }
  }

  lemma {:induction false} FindShift(p: string, s: string, c: char, from: nat)
    requires from <= |s|
    ensures Find(p + s, c, |p| + from) == |p| + Find(s, c, from)
    decreases |s| - from
  {
    if from < |s| && s[from] != c {
      assert (p + s)[|p| + from] == s[from];
      FindShift(p, s, c, from + 1);
    }
  }

  /** A free piece in front of a separator is the first piece. */
  lemma SplitCons(p: string, s: string, c: char)
    requires c !in p
    ensures Split(p + [c] + s, c) == [p] + Split(s, c)
  {
    var t := p + [c] + s;
    assert t[|p|] == c;
    assert forall j :: 0 <= j < |p| ==> t[j] == p[j];
    assert Find(t, c, 0) == |p|;
    assert t[0..|p|] == p;
    SplitShift(p + [c], s, c, 0);
  }

  lemma SplitOne(p: string, c: char)
    requires c !in p
    ensures Split(p, c) == [p]
  {
    assert p[0..|p|] == p;
  }

  /** Splitting undoes joining of free pieces. */
  lemma {:induction false} SplitJoin(parts: seq<string>, c: char)
    requires parts != [] && Free(parts, c)
    ensures Split(Join(parts, c), c) == parts
    decreases |parts|
  {
    if |parts| == 1 {
      SplitOne(parts[0], c);
    } else {
      SplitJoin(parts[1..], c);
      SplitCons(parts[0], Join(parts[1..], c), c);
      assert parts == [parts[0]] + parts[1..];
    }
  }

  lemma {:induction false} JoinConcat(a: seq<string>, b: seq<string>, c: char)
    requires a != [] && b != []
    ensures Join(a + b, c) == Join(a, c) + [c] + Join(b, c)
    decreases |a|
  {
    if |a| == 1 {
      assert a == [a[0]];
      JoinCons(a[0], b, c);
    } else {
      JoinConcat(a[1..], b, c);
      JoinCons(a[0], a[1..] + b, c);
      assert a + b == [a[0]] + (a[1..] + b);
    }
  }

  /** Splitting at a separator that is there splits both sides. */
  lemma SplitConcat(x: string, y: string, c: char)
    ensures Split(x + [c] + y, c) == Split(x, c) + Split(y, c)
  {
    JoinSplit(x, c);
    JoinSplit(y, c);
    JoinConcat(Split(x, c), Split(y, c), c);
    SplitJoin(Split(x, c) + Split(y, c), c);
  }
}
