/**
 The order of parameter routes in the dispatch table (src/core/http_dispatch.c,
 sl_http_route_entry_less): more specific segments first, longer patterns before their
 prefixes, and plan order as the last resort.
*/
module RouteOrder {
  import opened RouteParser

  datatype Verb = GET | POST | PUT | PATCH | DELETE | OPTIONS | HEAD

  /** A runnable route; `order` is its position in the Plan. */
  datatype Binding = Binding(verb: Verb, source: string, segments: seq<Segment>, order: nat)

  /** sl_str_compare < 0: bytewise, a proper prefix first. */
  predicate TextLess(a: string, b: string) {
    b != "" && (a == "" || a[0] < b[0] || (a[0] == b[0] && TextLess(a[1..], b[1..])))
  }

  /** Static before constrained before unconstrained. */
  function Rank(s: Segment): nat {
    if s.Static? then 0 else if s.kind != StringParam then 1 else 2
  }

  predicate SegmentLess(a: Segment, b: Segment) {
    Rank(a) < Rank(b) || (a.Static? && b.Static? && TextLess(a.text, b.text))
  }

  /** Neither segment decides. */
  predicate SegmentTie(a: Segment, b: Segment) {
    Rank(a) == Rank(b) && (a.Static? ==> a.text == b.text)
  }

  predicate SegmentsLess(a: seq<Segment>, b: seq<Segment>, ao: nat, bo: nat) {
    if a == [] || b == [] then |a| > |b| || (|a| == |b| && ao < bo)
    else if SegmentTie(a[0], b[0]) then SegmentsLess(a[1..], b[1..], ao, bo)
    else SegmentLess(a[0], b[0])
  }

  predicate Less(a: Binding, b: Binding) {
    SegmentsLess(a.segments, b.segments, a.order, b.order)
  }

  /** The comparison loop over the shared segments. */
  method EntryLess(left: Binding, right: Binding) returns (r: bool)
    ensures r == Less(left, right)
  {
    var l, m := left.segments, right.segments;
    var index := 0;
    assert l[0..] == l && m[0..] == m;
    while index < |l| && index < |m|
      invariant 0 <= index <= |l| && index <= |m|
      invariant Less(left, right) == SegmentsLess(l[index..], m[index..], left.order, right.order)
    {
      var a, b := l[index], m[index];
      assert l[index..][0] == a && m[index..][0] == b;
      assert l[index..][1..] == l[index + 1..] && m[index..][1..] == m[index + 1..];
      var leftConstrained := a.Param? && a.kind != StringParam;
      var rightConstrained := b.Param? && b.kind != StringParam;
      if a.Param? != b.Param? {
        return !a.Param?;
      }
      if a.Param? && leftConstrained != rightConstrained {
        return leftConstrained;
      }
      if a.Static? && b.Static? && a.text != b.text {
        return TextLess(a.text, b.text);
      }
      index := index + 1;
    }
    if |l| != |m| {
      return |l| > |m|;
    }
    r := left.order < right.order;
  }

  // ----- what the comparator decides by -----

  /** The comparison cannot tell them apart: one text, or two parameters both constrained or both not. */
  predicate SameTest(a: Segment, b: Segment) {
    if a.Static? then b.Static? && a.text == b.text
    else b.Param? && (a.kind == StringParam <==> b.kind == StringParam)
  }

  /** The first position where the segments can be told apart. */
  ghost predicate PartAt(a: seq<Segment>, b: seq<Segment>, k: nat) {
    k < |a| && k < |b| && !SameTest(a[k], b[k]) && forall i :: 0 <= i < k ==> SameTest(a[i], b[i])
  }

  /** A text before a parameter, a constrained parameter before a free one, the lesser of two texts. */
  predicate Before(a: Segment, b: Segment) {
    || (a.Static? && b.Param?)
    || (a.Param? && b.Param? && a.kind != StringParam && b.kind == StringParam)
    || (a.Static? && b.Static? && TextLess(a.text, b.text))
  }

  /** Bytewise: the first byte that differs decides, and a proper prefix comes first. */
  lemma {:induction false} TextLessExactly(a: string, b: string, k: nat)
    requires k <= |a| && k <= |b| && a[..k] == b[..k]
    requires k == |a| || k == |b| || a[k] != b[k]
    ensures TextLess(a, b) <==> k < |b| && (k == |a| || a[k] < b[k])
  {
    if k > 0 {
      assert a[0] == a[..k][0] && b[0] == b[..k][0];
      assert a[1..][..k - 1] == a[..k][1..] && b[1..][..k - 1] == b[..k][1..];
      TextLessExactly(a[1..], b[1..], k - 1);
    }
  }

  lemma {:induction false} SegmentsLessAt(a: seq<Segment>, b: seq<Segment>, ao: nat, bo: nat, k: nat)
    requires PartAt(a, b, k)
    ensures SegmentsLess(a, b, ao, bo) <==> Before(a[k], b[k])
    decreases k
  {
    if k > 0 {
      assert SameTest(a[0], b[0]);
      SegmentsLessAt(a[1..], b[1..], ao, bo, k - 1);
    }
  }

  lemma {:induction false} SegmentsLessLast(a: seq<Segment>, b: seq<Segment>, ao: nat, bo: nat)
    requires forall i :: 0 <= i < |a| && i < |b| ==> SameTest(a[i], b[i])
    ensures SegmentsLess(a, b, ao, bo) <==> |a| > |b| || (|a| == |b| && ao < bo)
    decreases |a|
  {
    if a != [] && b != [] {
      assert SameTest(a[0], b[0]);
      SegmentsLessLast(a[1..], b[1..], ao, bo);
    }
  }

  /** The first telling position decides; without one the longer, then the earlier in the Plan. */
  lemma LessExactly(a: Binding, b: Binding, k: nat)
    ensures PartAt(a.segments, b.segments, k) ==> (Less(a, b) <==> Before(a.segments[k], b.segments[k]))
    ensures (forall i :: 0 <= i < |a.segments| && i < |b.segments| ==> SameTest(a.segments[i], b.segments[i])) ==>
            (Less(a, b) <==>
               |a.segments| > |b.segments| || (|a.segments| == |b.segments| && a.order < b.order))
  {
    if PartAt(a.segments, b.segments, k) {
      SegmentsLessAt(a.segments, b.segments, a.order, b.order, k);
    } else if forall i :: 0 <= i < |a.segments| && i < |b.segments| ==> SameTest(a.segments[i], b.segments[i]) {
      SegmentsLessLast(a.segments, b.segments, a.order, b.order);
    }
  }

  // ----- the comparator is a strict total order -----

  lemma {:induction false} TextTotal(a: string, b: string)
    ensures !(TextLess(a, b) && TextLess(b, a))
    ensures a == b || TextLess(a, b) || TextLess(b, a)
    ensures a == b ==> !TextLess(a, b)
  {
    if a != "" && b != "" && a[0] == b[0] {
      TextTotal(a[1..], b[1..]);
      assert a == [a[0]] + a[1..] && b == [b[0]] + b[1..];
    }
  }

  lemma {:induction false} TextTransitive(a: string, b: string, c: string)
    requires TextLess(a, b) && TextLess(b, c)
    ensures TextLess(a, c)
  {
    if a != "" && a[0] == b[0] == c[0] {
      TextTransitive(a[1..], b[1..], c[1..]);
    }
  }

  lemma SegmentTotal(a: Segment, b: Segment)
    ensures SegmentTie(a, b) <==> SegmentTie(b, a)
    ensures SegmentTie(a, b) ==> !SegmentLess(a, b)
    ensures !SegmentTie(a, b) ==> (SegmentLess(a, b) <==> !SegmentLess(b, a))
  {
    if a.Static? && b.Static? {
      TextTotal(a.text, b.text);
    }
  }

  lemma SegmentTransitive(a: Segment, b: Segment, c: Segment)
    ensures SegmentLess(a, b) && SegmentLess(b, c) ==> SegmentLess(a, c)
    ensures SegmentTie(a, b) && SegmentLess(b, c) ==> SegmentLess(a, c)
    ensures SegmentLess(a, b) && SegmentTie(b, c) ==> SegmentLess(a, c)
    ensures SegmentTie(a, b) && SegmentTie(b, c) ==> SegmentTie(a, c)
  {
    if a.Static? && b.Static? && c.Static? && TextLess(a.text, b.text) && TextLess(b.text, c.text) {
      TextTransitive(a.text, b.text, c.text);
    }
  }

  lemma {:induction false} SegmentsTotal(a: seq<Segment>, b: seq<Segment>, ao: nat, bo: nat)
    ensures !(SegmentsLess(a, b, ao, bo) && SegmentsLess(b, a, bo, ao))
    ensures ao != bo ==> SegmentsLess(a, b, ao, bo) || SegmentsLess(b, a, bo, ao)
    decreases |a|
  {
    if a != [] && b != [] {
      SegmentTotal(a[0], b[0]);
      if SegmentTie(a[0], b[0]) {
        SegmentsTotal(a[1..], b[1..], ao, bo);
      }
    }
  }

  lemma {:induction false} SegmentsTransitive(a: seq<Segment>, b: seq<Segment>, c: seq<Segment>, ao: nat, bo: nat,
      co: nat)
    requires SegmentsLess(a, b, ao, bo) && SegmentsLess(b, c, bo, co)
    ensures SegmentsLess(a, c, ao, co)
    decreases |a|
  {
    if a != [] && b != [] && c != [] {
      SegmentTransitive(a[0], b[0], c[0]);
      SegmentTotal(a[0], c[0]);
      if SegmentTie(a[0], b[0]) && SegmentTie(b[0], c[0]) {
        SegmentsTransitive(a[1..], b[1..], c[1..], ao, bo, co);
      }
    }
  }

  lemma LessIsStrictOrder(a: Binding, b: Binding, c: Binding)
    ensures !(Less(a, b) && Less(b, a))
    ensures a.order != b.order ==> Less(a, b) || Less(b, a)
    ensures Less(a, b) && Less(b, c) ==> Less(a, c)
  {
    SegmentsTotal(a.segments, b.segments, a.order, b.order);
    if Less(a, b) && Less(b, c) {
      SegmentsTransitive(a.segments, b.segments, c.segments, a.order, b.order, c.order);
    }
  }

  // ----- sorting -----

  predicate DistinctOrders(bs: seq<Binding>) {
    forall i, j :: 0 <= i < j < |bs| ==> bs[i].order != bs[j].order
  }

  predicate Sorted(bs: seq<Binding>) {
    forall i, j :: 0 <= i < j < |bs| ==> Less(bs[i], bs[j])
  }

  function Insert(b: Binding, bs: seq<Binding>): (r: seq<Binding>)
    ensures |r| == |bs| + 1
  {
    if bs == [] then [b] else if Less(b, bs[0]) then [b] + bs else [bs[0]] + Insert(b, bs[1..])
  }

  /** qsort with the comparator above. */
  function SortRoutes(bs: seq<Binding>): (r: seq<Binding>)
    ensures |r| == |bs|
  {
    if bs == [] then [] else Insert(bs[0], SortRoutes(bs[1..]))
  }

  lemma {:induction false} InsertKeeps(b: Binding, bs: seq<Binding>)
    ensures multiset(Insert(b, bs)) == multiset(bs) + multiset{b}
  {
    if bs != [] {
      assert bs == [bs[0]] + bs[1..];
      InsertKeeps(b, bs[1..]);
    }
  }

  lemma {:induction false} SortKeeps(bs: seq<Binding>)
    ensures multiset(SortRoutes(bs)) == multiset(bs)
  {
    if bs != [] {
      assert bs == [bs[0]] + bs[1..];
      SortKeeps(bs[1..]);
      InsertKeeps(bs[0], SortRoutes(bs[1..]));
    }
  }

  lemma SortedCons(b: Binding, bs: seq<Binding>)
    requires Sorted(bs) && forall i :: 0 <= i < |bs| ==> Less(b, bs[i])
    ensures Sorted([b] + bs)
  {
  }

  lemma {:induction false} InsertSorts(b: Binding, bs: seq<Binding>)
    requires Sorted(bs) && forall i :: 0 <= i < |bs| ==> bs[i].order != b.order
    ensures Sorted(Insert(b, bs))
  {
    if bs != [] {
      if Less(b, bs[0]) {
        forall i | 0 <= i < |bs|
          ensures Less(b, bs[i])
        {
          LessIsStrictOrder(b, bs[0], bs[i]);
        }
        SortedCons(b, bs);
      } else {
        LessIsStrictOrder(b, bs[0], b);
        InsertSorts(b, bs[1..]);
        FirstStaysFirst(b, bs);
        SortedCons(bs[0], Insert(b, bs[1..]));
      }
    }
  }

  lemma FirstStaysFirst(b: Binding, bs: seq<Binding>)
    requires Sorted(bs) && bs != [] && Less(bs[0], b)
    ensures forall i :: 0 <= i < |Insert(b, bs[1..])| ==> Less(bs[0], Insert(b, bs[1..])[i])
  {
    var rest := Insert(b, bs[1..]);
    InsertKeeps(b, bs[1..]);
    forall i | 0 <= i < |rest|
      ensures Less(bs[0], rest[i])
    {
      assert rest[i] in multiset(bs[1..]) + multiset{b};
      if rest[i] != b {
        var k :| 0 <= k < |bs[1..]| && bs[1..][k] == rest[i];
        assert rest[i] == bs[k + 1];
      }
    }
  }

  lemma {:induction false} SortSorts(bs: seq<Binding>)
    requires DistinctOrders(bs)
    ensures Sorted(SortRoutes(bs))
  {
    if bs != [] {
      var rest := SortRoutes(bs[1..]);
      SortSorts(bs[1..]);
      SortKeeps(bs[1..]);
      forall i | 0 <= i < |rest|
        ensures rest[i].order != bs[0].order
      {
        assert rest[i] in multiset(bs[1..]);
        var k :| 0 <= k < |bs[1..]| && bs[1..][k] == rest[i];
        assert rest[i] == bs[k + 1];
      }
      InsertSorts(bs[0], rest);
    }
  }
}
