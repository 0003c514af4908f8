/**
 Text editing by source spans (compiler/src/framework_runtime.rs, edit_source_spans).

 The compiler sorts the edits by decreasing position and applies them to one shrinking
 buffer, testing every span against the buffer as it is at that moment.  The reference
 meaning is `Splice`: the gaps of the untouched source with the replacement texts between
 them.  Positions are absolute; `base` is the position of the first byte of the buffer.
*/
module SpanEdits {
  import opened Prelude
  import opened Permutations

  datatype Span = Span(start: nat, end: nat)

  /** An erasure is an edit whose replacement text is empty. */
  datatype Edit = Edit(span: Span, text: string)

  function Erasures(spans: seq<Span>): (edits: seq<Edit>)
    ensures |edits| == |spans|
    ensures forall i :: 0 <= i < |spans| ==> edits[i] == Edit(spans[i], "")
  {
    seq(|spans|, i requires 0 <= i < |spans| => Edit(spans[i], ""))
  }

  /** The comparator of the sort: later starts first, then later ends. */
  predicate Before(a: Edit, b: Edit) {
    a.span.start > b.span.start || (a.span.start == b.span.start && a.span.end >= b.span.end)
  }

  predicate Sorted(edits: seq<Edit>) {
    |edits| < 2 || (Before(edits[0], edits[1]) && Sorted(edits[1..]))
  }

  lemma {:induction false} FirstIsBefore(edits: seq<Edit>, i: nat)
    requires Sorted(edits) && i < |edits|
    ensures Before(edits[0], edits[i])
  {
    if i > 0 {
      FirstIsBefore(edits[1..], i - 1);
    }
  }

  /** Stable insertion: `e` goes after every edit that compares equal. */
  function Insert(e: Edit, edits: seq<Edit>): (r: seq<Edit>)
    requires Sorted(edits)
    ensures |r| == |edits| + 1 && Sorted(r)
    ensures r[0] == e || (edits != [] && r[0] == edits[0])
  {
    if edits == [] then [e]
    else if Before(edits[0], e) then [edits[0]] + Insert(e, edits[1..])
    else [e] + edits
  }

  lemma {:induction false} InsertKeeps(e: Edit, edits: seq<Edit>)
    requires Sorted(edits)
    ensures multiset(Insert(e, edits)) == multiset(edits) + multiset{e}
  {
    if edits != [] {
      assert edits == [edits[0]] + edits[1..];
      if Before(edits[0], e) {
        InsertKeeps(e, edits[1..]);
      }
    }
  }

  /** The stable sort `edits.sort_by`. */
  function Sort(edits: seq<Edit>): (r: seq<Edit>)
    ensures Sorted(r) && multiset(r) == multiset(edits)
  {
    if edits == [] then []
    else
      var last := |edits| - 1;
      assert edits == edits[..last] + [edits[last]];
      InsertKeeps(edits[last], Sort(edits[..last]));
      Insert(edits[last], Sort(edits[..last]))
  }

  /** One step of the loop: both checked subtractions, the two tests, then the replacement. */
  function Apply(buffer: string, base: nat, e: Edit): Option<string> {
    if e.span.start < base || e.span.end < base then None
    else
      var start, end := e.span.start - base, e.span.end - base;
      if end > |buffer| || start > end then None
      else Some(buffer[..start] + e.text + buffer[end..])
  }

  function ApplyAll(buffer: string, base: nat, edits: seq<Edit>): Option<string>
    decreases |edits|
  {
    if edits == [] then Some(buffer)
    else
      var next := Apply(buffer, base, edits[0]);
      if next.None? then None else ApplyAll(next.value, base, edits[1..])
  }

  /** The edits as the compiler assembles them: erasures first, then replacements. */
  method EditSourceSpans(source: string, base: nat, erase: seq<Span>, replacements: seq<Edit>)
    returns (r: Option<string>)
    ensures r == ApplyAll(source, base, Sort(Erasures(erase) + replacements))
  {
    var output := source;
    var edits := Sort(Erasures(erase) + replacements);
    var i := 0;
    while i < |edits|
      invariant 0 <= i <= |edits|
      invariant ApplyAll(source, base, edits) == ApplyAll(output, base, edits[i..])
    {
      var next := Apply(output, base, edits[i]);
      if next.None? {
        return None;
      }
      output := next.value;
      assert edits[i..][1..] == edits[i + 1..];
      i := i + 1;
    }
    r := Some(output);
  }

  // ----- the reference: one splice of the untouched source -----

  /** Right to left, every edit lies in [lo, hi) and ends no later than the next one starts. */
  predicate Chain(edits: seq<Edit>, lo: nat, hi: nat)
    decreases |edits|
  {
    if edits == [] then lo <= hi
    else
      var s := edits[0].span;
      lo <= s.start <= s.end <= hi && Chain(edits[1..], lo, s.start)
  }

  /** The part of `source` before absolute position `hi`, with the edits of a chain made. */
  function Splice(source: string, base: nat, hi: nat, edits: seq<Edit>): string
    requires base <= hi <= base + |source|
    requires Chain(edits, base, hi)
    decreases |edits|
  {
    if edits == [] then source[..hi - base]
    else
      var e := edits[0];
      Splice(source, base, e.span.start, edits[1..]) + e.text + source[e.span.end - base..hi - base]
  }

  predicate Apart(a: Span, b: Span) {
    a.end <= b.start || b.end <= a.start
  }

  /** In-range, pairwise disjoint edits, in any order. */
  predicate Separate(edits: seq<Edit>, lo: nat, hi: nat) {
    && lo <= hi
    && (forall i :: 0 <= i < |edits| ==> lo <= edits[i].span.start <= edits[i].span.end <= hi)
    && (forall i, j :: 0 <= i < j < |edits| ==> Apart(edits[i].span, edits[j].span))
  }

  /** No two edits ask for different texts at the very same span. */
  predicate Unambiguous(edits: seq<Edit>) {
    forall i, j :: 0 <= i < |edits| && 0 <= j < |edits| && edits[i].span == edits[j].span
                   ==> edits[i].text == edits[j].text
  }

  lemma {:induction false} SortedSeparateIsChain(edits: seq<Edit>, lo: nat, hi: nat)
    requires Sorted(edits) && Separate(edits, lo, hi)
    ensures Chain(edits, lo, hi)
    decreases |edits|
  {
    if edits != [] {
      var first, rest := edits[0], edits[1..];
      forall i | 0 <= i < |rest|
        ensures rest[i].span.end <= first.span.start
      {
        assert rest[i] == edits[i + 1];
        FirstIsBefore(edits, i + 1);
        assert Apart(edits[0].span, edits[i + 1].span);
      }
      SortedSeparateIsChain(rest, lo, first.span.start);
    }
  }

  /** One edit inside the untouched front of the buffer. */
  lemma EditFront(source: string, cut: nat, tail: string, start: nat, end: nat, text: string)
    requires start <= end <= cut <= |source|
    ensures var buffer := source[..cut] + tail;
            buffer[..start] + text + buffer[end..] == source[..start] + (text + source[end..cut] + tail)
  {
    var buffer := source[..cut] + tail;
    assert buffer[..start] == source[..start];
    assert buffer[end..] == source[end..cut] + tail;
  }

  /** Working right to left, the buffer before the last edited start is still the source. */
  lemma {:induction false} ApplyAllFrom(source: string, base: nat, hi: nat, tail: string, edits: seq<Edit>)
    requires base <= hi <= base + |source|
    requires Chain(edits, base, hi)
    ensures ApplyAll(source[..hi - base] + tail, base, edits)
         == Some(Splice(source, base, hi, edits) + tail)
    decreases |edits|
  {
    if edits != [] {
      var e := edits[0];
      var start, end := e.span.start - base, e.span.end - base;
      var gap := source[end..hi - base];
      EditFront(source, hi - base, tail, start, end, e.text);
      ApplyAllFrom(source, base, e.span.start, e.text + gap + tail, edits[1..]);
      RegroupFour(Splice(source, base, e.span.start, edits[1..]), e.text, gap, tail);
    }
  }

  lemma {:induction false} ApplyAllIsSplice(source: string, base: nat, edits: seq<Edit>)
    requires Chain(edits, base, base + |source|)
    ensures ApplyAll(source, base, edits) == Some(Splice(source, base, base + |source|, edits))
  {
    assert source[..|source|] + "" == source;
    ApplyAllFrom(source, base, base + |source|, "", edits);
    var s := Splice(source, base, base + |source|, edits);
    assert s + "" == s;
  }

  // ----- order independence -----

  lemma SeparatePermutes(a: seq<Edit>, b: seq<Edit>, lo: nat, hi: nat)
    requires Separate(a, lo, hi) && multiset(a) == multiset(b)
    ensures Separate(b, lo, hi)
  {
    forall i | 0 <= i < |b|
      ensures lo <= b[i].span.start <= b[i].span.end <= hi
    {
      assert b[i] in multiset(b);
      assert b[i] in a;
    }
    forall i, j | 0 <= i < j < |b|
      ensures Apart(b[i].span, b[j].span)
    {
      TwoOccurrences(a, b, i, j);
    }
  }

  /** Of two sorted permutations, each head comes before the other's. */
  lemma SortedHeadsAgree(a: seq<Edit>, b: seq<Edit>)
    requires Sorted(a) && Sorted(b) && multiset(a) == multiset(b) && Unambiguous(a) && a != []
    ensures b != [] && a[0] == b[0]
  {
    assert a[0] in multiset(b);
    assert b[0] in multiset(a);
    var i :| 0 <= i < |b| && b[i] == a[0];
    var j :| 0 <= j < |a| && a[j] == b[0];
    FirstIsBefore(a, j);
    FirstIsBefore(b, i);
  }

  lemma {:induction false} SortedPermutationsAgree(a: seq<Edit>, b: seq<Edit>)
    requires Sorted(a) && Sorted(b) && multiset(a) == multiset(b) && Unambiguous(a)
    ensures a == b
    decreases |a|
  {
    assert |multiset(a)| == |a| && |multiset(b)| == |b|;
    if a != [] {
      SortedHeadsAgree(a, b);
      TailsPermute(a, b);
      UnambiguousTail(a);
      SortedPermutationsAgree(a[1..], b[1..]);
      assert a == [a[0]] + a[1..] && b == [b[0]] + b[1..];
    }
  }

  lemma UnambiguousTail(a: seq<Edit>)
    requires Unambiguous(a) && a != []
    ensures Unambiguous(a[1..])
  {
    assert forall i :: 0 <= i < |a| - 1 ==> a[1..][i] == a[i + 1];
  }

  /**
   In-place editing is one splice: for disjoint in-range edits it never gives up, and the
   result is the splice of the sorted edits.
  */
  lemma EditingIsSplice(source: string, base: nat, edits: seq<Edit>)
    requires Separate(edits, base, base + |source|)
    ensures Chain(Sort(edits), base, base + |source|)
    ensures ApplyAll(source, base, Sort(edits))
         == Some(Splice(source, base, base + |source|, Sort(edits)))
  {
    SeparatePermutes(edits, Sort(edits), base, base + |source|);
    SortedSeparateIsChain(Sort(edits), base, base + |source|);
    ApplyAllIsSplice(source, base, Sort(edits));
  }

  /** The order in which the edits were collected does not matter. */
  lemma EditingIgnoresOrder(source: string, base: nat, a: seq<Edit>, b: seq<Edit>)
    requires Unambiguous(a) && multiset(a) == multiset(b)
    ensures ApplyAll(source, base, Sort(a)) == ApplyAll(source, base, Sort(b))
  {
    forall i, j | 0 <= i < |Sort(a)| && 0 <= j < |Sort(a)| && Sort(a)[i].span == Sort(a)[j].span
      ensures Sort(a)[i].text == Sort(a)[j].text
    {
      assert Sort(a)[i] in multiset(a) && Sort(a)[j] in multiset(a);
    }
    SortedPermutationsAgree(Sort(a), Sort(b));
  }

  function Removed(edits: seq<Edit>): int {
    if edits == [] then 0 else edits[0].span.end - edits[0].span.start + Removed(edits[1..])
  }

  function Added(edits: seq<Edit>): nat {
    if edits == [] then 0 else |edits[0].text| + Added(edits[1..])
  }

  lemma {:induction false} SpliceLength(source: string, base: nat, hi: nat, edits: seq<Edit>)
    requires base <= hi <= base + |source|
    requires Chain(edits, base, hi)
    ensures |Splice(source, base, hi, edits)| == hi - base - Removed(edits) + Added(edits)
    decreases |edits|
  {
    if edits != [] {
      SpliceLength(source, base, edits[0].span.start, edits[1..]);
    }
  }

  // ----- splicing adjacent texts -----

  predicate Solid(edits: seq<Edit>) {
    forall e :: e in edits ==> e.span.start < e.span.end
  }

  /** A chain of non-empty edits that turns `text`, placed at `at`, into `result`. */
  predicate SplicesTo(edits: seq<Edit>, at: nat, text: string, result: string) {
    && Chain(edits, at, at + |text|)
    && Solid(edits)
    && Splice(text, at, at + |text|, edits) == result
  }

  lemma {:induction false} ChainAppend(ea: seq<Edit>, eb: seq<Edit>, lo: nat, mid: nat, hi: nat)
    requires Chain(ea, lo, mid) && Chain(eb, mid, hi)
    ensures Chain(eb + ea, lo, hi)
    decreases |eb|
  {
    ChainBounds(ea, lo, mid);
    ChainBounds(eb, mid, hi);
    if eb == [] {
      assert eb + ea == ea;
    } else {
      assert (eb + ea)[0] == eb[0] && (eb + ea)[1..] == eb[1..] + ea;
      ChainAppend(ea, eb[1..], lo, mid, eb[0].span.start);
    }
  }

  lemma {:induction false} ChainBounds(edits: seq<Edit>, lo: nat, hi: nat)
    requires Chain(edits, lo, hi)
    ensures lo <= hi
  {
    if edits != [] {
      ChainBounds(edits[1..], lo, edits[0].span.start);
    }
  }

  lemma ChainStep(edits: seq<Edit>, lo: nat, hi: nat, e: Edit, rest: seq<Edit>)
    requires Chain(edits, lo, hi) && edits != [] && edits[0] == e && edits[1..] == rest
    ensures Chain(rest, lo, e.span.start) && lo <= e.span.start <= e.span.end <= hi
  {
  }

  lemma SpliceStep(source: string, base: nat, hi: nat, edits: seq<Edit>, e: Edit, rest: seq<Edit>)
    requires base <= hi <= base + |source| && Chain(edits, base, hi)
    requires edits != [] && edits[0] == e && edits[1..] == rest
    ensures Chain(rest, base, e.span.start) && base <= e.span.start <= e.span.end <= hi
    ensures Splice(source, base, hi, edits)
         == Splice(source, base, e.span.start, rest) + e.text + source[e.span.end - base..hi - base]
  {
    ChainStep(edits, base, hi, e, rest);
  }

  lemma {:induction false} SpliceAppend(a: string, b: string, at: nat, ea: seq<Edit>, eb: seq<Edit>, hi: nat)
    requires at + |a| <= hi <= at + |a| + |b|
    requires Chain(ea, at, at + |a|) && Chain(eb, at + |a|, hi) && Chain(eb + ea, at, hi)
    ensures Splice(a + b, at, hi, eb + ea)
         == Splice(a, at, at + |a|, ea) + Splice(b, at + |a|, hi, eb)
    decreases |eb|
  {
    if eb == [] {
      assert eb + ea == ea;
      SpliceInto(a, b, at, ea, hi);
    } else {
      var e, rest := eb[0], eb[1..];
      TailOfSum(eb, ea);
      SpliceStep(b, at + |a|, hi, eb, e, rest);
      SpliceStep(a + b, at, hi, eb + ea, e, rest + ea);
      SpliceAppend(a, b, at, ea, rest, e.span.start);
      SpliceOn(a, b, a + b, at, hi, e, Splice(a, at, at + |a|, ea), Splice(b, at + |a|, e.span.start, rest));
    }
  }

  /** Adding the last edit and what follows it to the right part adds it to the whole. */
  lemma SpliceOn(a: string, b: string, ab: string, at: nat, hi: nat, e: Edit, left: string, middle: string)
    requires ab == a + b && at + |a| <= e.span.start <= e.span.end <= hi <= at + |a| + |b|
    ensures (left + middle) + e.text + ab[e.span.end - at..hi - at]
         == left + (middle + e.text + b[e.span.end - (at + |a|)..hi - (at + |a|)])
  {
    SliceOfSecond(a, b, e.span.end - at, hi - at);
    RegroupFour(left, middle, e.text, ab[e.span.end - at..hi - at]);
  }

  lemma SliceOfSecond(a: string, b: string, i: nat, j: nat)
    requires |a| <= i <= j <= |a| + |b|
    ensures (a + b)[i..j] == b[i - |a|..j - |a|]
  {
  }

  lemma SliceAcross(a: string, b: string, i: nat, j: nat)
    requires i <= |a| <= j <= |a| + |b|
    ensures (a + b)[i..j] == a[i..|a|] + b[..j - |a|]
  {
  }

  lemma SliceOfFirst(a: string, b: string, i: nat, j: nat)
    requires i <= j <= |a|
    ensures (a + b)[i..j] == a[i..j]
  {
  }

  /** Text after the last edit is copied. */
  lemma {:induction false} SpliceInto(a: string, b: string, at: nat, ea: seq<Edit>, hi: nat)
    requires at + |a| <= hi <= at + |a| + |b|
    requires Chain(ea, at, at + |a|) && Chain(ea, at, hi)
    ensures Splice(a + b, at, hi, ea) == Splice(a, at, at + |a|, ea) + b[..hi - at - |a|]
  {
    if ea == [] {
      SliceAcross(a, b, 0, hi - at);
      assert a[..|a|] == a[0..|a|];
    } else {
      var e, rest := ea[0], ea[1..];
      SpliceStep(a, at, at + |a|, ea, e, rest);
      SpliceStep(a + b, at, hi, ea, e, rest);
      SplicePrefix(a, b, at, rest, e.span.start);
      SliceAcross(a, b, e.span.end - at, hi - at);
      Regroup(Splice(a, at, e.span.start, rest) + e.text, a[e.span.end - at..|a|], b[..hi - at - |a|]);
    }
  }

  /** Text to the right of the spliced range does not matter. */
  lemma {:induction false} SplicePrefix(a: string, b: string, at: nat, ea: seq<Edit>, hi: nat)
    requires at <= hi <= at + |a|
    requires Chain(ea, at, hi)
    ensures Splice(a + b, at, hi, ea) == Splice(a, at, hi, ea)
    decreases |ea|
  {
    if ea == [] {
      SliceOfFirst(a, b, 0, hi - at);
    } else {
      var e, rest := ea[0], ea[1..];
      SpliceStep(a, at, hi, ea, e, rest);
      SpliceStep(a + b, at, hi, ea, e, rest);
      SplicePrefix(a, b, at, rest, e.span.start);
      SliceOfFirst(a, b, e.span.end - at, hi - at);
    }
  }

  lemma SplicesToAppend(ea: seq<Edit>, a: string, ra: string, eb: seq<Edit>, b: string, rb: string, at: nat)
    requires SplicesTo(ea, at, a, ra) && SplicesTo(eb, at + |a|, b, rb)
    ensures SplicesTo(eb + ea, at, a + b, ra + rb)
  {
    var end := at + |a| + |b|;
    assert at + |a + b| == end;
    ChainAppend(ea, eb, at, at + |a|, end);
    SpliceAppend(a, b, at, ea, eb, end);
    SolidAppend(ea, eb);
  }

  lemma SolidAppend(ea: seq<Edit>, eb: seq<Edit>)
    requires Solid(ea) && Solid(eb)
    ensures Solid(eb + ea)
  {
  }

  /** One edit over a whole non-empty text leaves its replacement. */
  lemma SplicesToText(text: string, at: nat, with: string)
    requires text != ""
    ensures SplicesTo([Edit(Span(at, at + |text|), with)], at, text, with)
  {
    var e := Edit(Span(at, at + |text|), with);
    assert [e][1..] == [];
    assert Splice(text, at, at, []) == "";
    assert text[|text|..|text|] == "";
    assert "" + with + "" == with;
  }

  /** A chain of non-empty edits is sorted and names no span twice. */
  lemma {:induction false} SolidChainIsSorted(edits: seq<Edit>, lo: nat, hi: nat)
    requires Chain(edits, lo, hi) && Solid(edits)
    ensures Sorted(edits) && Unambiguous(edits)
    ensures forall e :: e in edits ==> e.span.end <= hi
    decreases |edits|
  {
    if edits != [] {
      assert edits[0] in edits;
      SolidChainIsSorted(edits[1..], lo, edits[0].span.start);
      assert forall e :: e in edits ==> e == edits[0] || e in edits[1..];
      if |edits| > 1 {
        assert edits[1] in edits && edits[1] in edits[1..];
      }
      forall i, j | 0 <= i < |edits| && 0 <= j < |edits| && edits[i].span == edits[j].span
        ensures edits[i].text == edits[j].text
      {
        if i > 0 && j > 0 {
          assert edits[i] == edits[1..][i - 1] && edits[j] == edits[1..][j - 1];
        }
      }
    }
  }

  /** However the edits of such a chain were collected, editing makes the splice. */
  lemma CollectedEditsSplice(collected: seq<Edit>, edits: seq<Edit>, at: nat, text: string, result: string)
    requires SplicesTo(edits, at, text, result) && multiset(collected) == multiset(edits)
    ensures ApplyAll(text, at, Sort(collected)) == Some(result)
  {
    SolidChainIsSorted(edits, at, at + |text|);
    SortedPermutationsAgree(edits, Sort(collected));
    ApplyAllIsSplice(text, at, edits);
  }
}
