/**
 The dispatch table and its two lookups (src/core/http_dispatch.c).

 `classic` scans the sorted routes.  `compiled` consults an exact-path index, then the trie,
 then the candidate buckets.  The runtime can be told to run both and to fail the request
 when they disagree; the main results say when that can happen.
*/
module RouteDispatch {
  import opened Prelude
  import opened Permutations
  import opened RoutePatterns
  import opened RouteParser
  import opened RouteMatching
  import opened RouteOrder
  import opened RouteTrie
  import ProbeTable

  /** A route as the plan loader produces it: a runnable method and a parsed pattern. */
  predicate Runnable(b: Binding) {
    b.verb != HEAD && Parsed(b.source) == Some(b.segments)
  }

  predicate Exact(b: Binding) {
    CountParams(b.segments) == 0
  }

  lemma {:induction false} NoParams(segments: seq<Segment>)
    requires CountParams(segments) == 0
    ensures forall i :: 0 <= i < |segments| ==> segments[i].Static?
  {
    if segments != [] {
      NoParams(segments[..|segments| - 1]);
    }
  }

  /** A parameterless pattern matches one path, its own text. */
  lemma ExactMatchesItself(b: Binding, path: string)
    requires Runnable(b) && Exact(b)
    ensures PathMatches(b.segments, path) <==> path == b.source
  {
    RuntimeAcceptsExactly(b.source);
    SupportedExactly(b.source);
    NoParams(b.segments);
    var pieces := Segments(b.source);
    forall i | 0 <= i < |pieces|
      ensures b.segments[i] == Static(pieces[i]) && pieces[i] != ""
    {
      assert SegmentSupported(pieces[i]);
      assert b.segments[i] == Meaning(pieces[i]).value;
    }
    if PathMatches(b.segments, path) {
      forall i | 0 <= i < |pieces|
        ensures Segments(path)[i] == pieces[i]
      {
        assert SegmentMatches(b.segments[i], Segments(path)[i]);
      }
      assert Segments(path) == pieces;
      SameSegments(path, b.source);
    }
  }

  // ----- the classic lookup -----

  predicate PathHit(b: Binding, path: string) {
    PathMatches(b.segments, path)
  }

  /** Some route before `bound` matches the path but has another method. */
  ghost predicate OtherMethod(routes: seq<Binding>, verb: Verb, path: string, lo: nat, bound: nat) {
    exists j :: lo <= j < bound && j < |routes| && PathHit(routes[j], path) && routes[j].verb != verb
  }

  ghost predicate IsFirstRoute(routes: seq<Binding>, verb: Verb, path: string, r: Option<nat>) {
    if r.Some? then IsFirstHit(routes, verb, path, r.value)
    else forall j :: 0 <= j < |routes| ==> !Hit(routes[j], verb, path)
  }

  lemma OtherMethodStep(routes: seq<Binding>, verb: Verb, path: string, i: nat)
    requires i < |routes|
    ensures OtherMethod(routes, verb, path, 0, i + 1)
            <==> OtherMethod(routes, verb, path, 0, i) || (PathHit(routes[i], path) && routes[i].verb != verb)
  {
  }

  /** sl_http_dispatch_find_route_linear; `verb` is the request method with HEAD read as GET. */
  method FindLinear(routes: seq<Binding>, verb: Verb, path: string) returns (r: Option<nat>, mismatch: bool)
    ensures IsFirstRoute(routes, verb, path, r)
    ensures mismatch <==> OtherMethod(routes, verb, path, 0, if r.Some? then r.value else |routes|)
  {
    mismatch := false;
    for i := 0 to |routes|
      invariant forall j :: 0 <= j < i ==> !Hit(routes[j], verb, path)
      invariant mismatch <==> OtherMethod(routes, verb, path, 0, i)
    {
      var matches := CouldMatch(routes[i].segments, path);
      assert matches == PathHit(routes[i], path);
      OtherMethodStep(routes, verb, path, i);
      if matches {
        if routes[i].verb != verb {
          mismatch := true;
        } else {
          return Some(i), mismatch;
        }
      }
    }
    r := None;
  }

  // ----- candidate buckets -----

  datatype Key = Key(verb: Verb, text: string)
  datatype Bucket = Bucket(key: Key, routes: seq<nat>)

  function FirstStatic(b: Binding): string {
    if b.segments != [] && b.segments[0].Static? then b.segments[0].text else ""
  }

  function BucketKey(b: Binding): Key {
    Key(b.verb, FirstStatic(b))
  }

  function BucketKeys(buckets: seq<Bucket>): (r: seq<Key>)
    ensures |r| == |buckets|
    ensures forall i :: 0 <= i < |buckets| ==> r[i] == buckets[i].key
  {
    seq(|buckets|, i requires 0 <= i < |buckets| => buckets[i].key)
  }

  /** A list of route positions: increasing, in range, and complete for its key. */
  ghost predicate Lists(routes: seq<nat>, bs: seq<Binding>, count: nat, key: Key)
    requires count <= |bs|
  {
    && (forall a :: 0 <= a < |routes| ==> routes[a] < count && BucketKey(bs[routes[a]]) == key)
    && (forall a, b :: 0 <= a < b < |routes| ==> routes[a] < routes[b])
    && (forall i :: 0 <= i < count && BucketKey(bs[i]) == key ==> i in routes)
  }

  ghost predicate Grouped(buckets: seq<Bucket>, bs: seq<Binding>, count: nat)
    requires count <= |bs|
  {
    && (forall a :: 0 <= a < |buckets| ==> Lists(buckets[a].routes, bs, count, buckets[a].key))
    && (forall a, b :: 0 <= a < b < |buckets| ==> buckets[a].key != buckets[b].key)
    && (forall i :: 0 <= i < count ==> BucketKey(bs[i]) in BucketKeys(buckets))
  }

  method FindBucketIndex(buckets: seq<Bucket>, key: Key) returns (r: Option<nat>)
    ensures r.Some? ==> r.value < |buckets| && buckets[r.value].key == key
    ensures r.None? ==> key !in BucketKeys(buckets)
  {
    for i := 0 to |buckets|
      invariant forall j :: 0 <= j < i ==> buckets[j].key != key
    {
      if buckets[i].key == key {
        return Some(i);
      }
    }
    r := None;
  }

  lemma ListsSnoc(routes: seq<nat>, bs: seq<Binding>, count: nat, key: Key)
    requires count < |bs| && Lists(routes, bs, count, key)
    ensures BucketKey(bs[count]) == key ==> Lists(routes + [count], bs, count + 1, key)
    ensures BucketKey(bs[count]) != key ==> Lists(routes, bs, count + 1, key)
  {
  }

  /** sl_http_route_table_build_param_index, with its counting and filling passes as one. */
  method BuildBuckets(bs: seq<Binding>) returns (buckets: seq<Bucket>)
    ensures Grouped(buckets, bs, |bs|) && |buckets| <= |bs| && (bs != [] ==> buckets != [])
  {
    buckets := [];
    for count := 0 to |bs|
      invariant Grouped(buckets, bs, count) && |buckets| <= count && (count > 0 ==> buckets != [])
    {
      var key := BucketKey(bs[count]);
      var at := FindBucketIndex(buckets, key);
      ghost var before := buckets;
      if at.None? {
        buckets := buckets + [Bucket(key, [count])];
        assert BucketKeys(buckets) == BucketKeys(before) + [key];
      } else {
        buckets := buckets[at.value := Bucket(key, buckets[at.value].routes + [count])];
        assert BucketKeys(buckets) == BucketKeys(before);
      }
      GroupedSnoc(before, buckets, bs, count, at);
    }
  }

  /** One more route, put into its bucket or into a new one at the end. */
  ghost predicate Placed(before: seq<Bucket>, after: seq<Bucket>, key: Key, count: nat, at: Option<nat>) {
    if at.Some? then at.value < |before| && before[at.value].key == key
        && after == before[at.value := Bucket(key, before[at.value].routes + [count])]
    else key !in BucketKeys(before) && after == before + [Bucket(key, [count])]
  }

  lemma PlacedLists(before: seq<Bucket>, after: seq<Bucket>, bs: seq<Binding>, count: nat, at: Option<nat>, a: nat)
    requires count < |bs| && Grouped(before, bs, count) && Placed(before, after, BucketKey(bs[count]), count, at)
             && a < |after|
    ensures Lists(after[a].routes, bs, count + 1, after[a].key)
  {
    var key := BucketKey(bs[count]);
    if a < |before| {
      ListsSnoc(before[a].routes, bs, count, before[a].key);
      if at.Some? && a != at.value {
        assert before[a].key != key;
      } else if at.None? {
        assert BucketKeys(before)[a] != key;
      }
    } else {
      forall i | 0 <= i < count
        ensures BucketKey(bs[i]) != key
      {
        assert BucketKey(bs[i]) in BucketKeys(before);
      }
    }
  }

  lemma PlacedKeys(before: seq<Bucket>, after: seq<Bucket>, key: Key, count: nat, at: Option<nat>)
    requires Placed(before, after, key, count, at)
    ensures key in BucketKeys(after) && forall k :: k in BucketKeys(before) ==> k in BucketKeys(after)
  {
    assert BucketKeys(after)[if at.Some? then at.value else |before|] == key;
    forall k | k in BucketKeys(before)
      ensures k in BucketKeys(after)
    {
      var a :| 0 <= a < |before| && BucketKeys(before)[a] == k;
      assert BucketKeys(after)[a] == k;
    }
  }

  lemma GroupedSnoc(before: seq<Bucket>, after: seq<Bucket>, bs: seq<Binding>, count: nat, at: Option<nat>)
    requires count < |bs| && Grouped(before, bs, count) && Placed(before, after, BucketKey(bs[count]), count, at)
    ensures Grouped(after, bs, count + 1)
  {
    PlacedKeys(before, after, BucketKey(bs[count]), count, at);
    forall a | 0 <= a < |after|
      ensures Lists(after[a].routes, bs, count + 1, after[a].key)
    {
      PlacedLists(before, after, bs, count, at, a);
    }
    forall a, b | 0 <= a < b < |after|
      ensures after[a].key != after[b].key
    {
      assert BucketKeys(before)[a] == before[a].key;
    }
  }

  // ----- scanning the two buckets a path can fall into -----

  function FirstPiece(path: string): string {
    if |path| <= 1 || path[0] != '/' then "" else Segments(path)[0]
  }

  /** sl_http_dispatch_first_path_segment */
  method FirstPathSegment(path: string) returns (r: string)
    ensures r == FirstPiece(path)
  {
    if |path| <= 1 || path[0] != '/' {
      return "";
    }
    PiecesAfterSlash(path);
    NextPiece(path, 1);
    var end := SegmentEnd(path, 1);
    r := path[1..end];
  }

  /** `first` and `generic` are the buckets of the path's first segment and of "". */
  ghost predicate Candidates(bs: seq<Binding>, first: seq<nat>, generic: seq<nat>, verb: Verb, path: string) {
    && Lists(generic, bs, |bs|, Key(verb, ""))
    && if FirstPiece(path) == "" then first == [] else Lists(first, bs, |bs|, Key(verb, FirstPiece(path)))
  }

  /** A route that matches sits in the bucket of its first segment or in the generic one. */
  lemma HitIsListed(bs: seq<Binding>, first: seq<nat>, generic: seq<nat>, verb: Verb, path: string, j: nat)
    requires Candidates(bs, first, generic, verb, path) && j < |bs| && Hit(bs[j], verb, path)
    ensures j in first || j in generic
  {
    if bs[j].segments != [] {
      assert SegmentMatches(bs[j].segments[0], Segments(path)[0]);
    }
  }

  ghost predicate Skipped(bs: seq<Binding>, listed: seq<nat>, path: string) {
    forall i :: i in listed ==> i < |bs| && !PathHit(bs[i], path)
  }

  lemma SkippedSnoc(bs: seq<Binding>, listed: seq<nat>, k: nat, path: string)
    requires k < |listed| && Skipped(bs, listed[..k], path) && listed[k] < |bs| && !PathHit(bs[listed[k]], path)
    ensures Skipped(bs, listed[..k + 1], path)
  {
    assert listed[..k + 1] == listed[..k] + [listed[k]];
  }

  /** The two-way merge of sl_http_dispatch_next_param_candidate, until a candidate matches. */
  method ScanCandidates(bs: seq<Binding>, first: seq<nat>, generic: seq<nat>, verb: Verb, path: string)
    returns (r: Option<nat>)
    requires Candidates(bs, first, generic, verb, path)
    ensures IsFirstRoute(bs, verb, path, r)
  {
    var f, g := 0, 0;
    while f < |first| || g < |generic|
      invariant 0 <= f <= |first| && 0 <= g <= |generic|
      invariant Skipped(bs, first[..f], path) && Skipped(bs, generic[..g], path)
      decreases |first| - f + |generic| - g
    {
      var takeGeneric := f == |first| || (g < |generic| && generic[g] < first[f]);
      var candidate := if takeGeneric then generic[g] else first[f];
      var matches := CouldMatch(bs[candidate].segments, path);
      if matches {
        MergedIsFirst(bs, first, generic, verb, path, f, g, candidate);
        return Some(candidate);
      }
      if takeGeneric {
        SkippedSnoc(bs, generic, g, path);
        g := g + 1;
      } else {
        SkippedSnoc(bs, first, f, path);
        f := f + 1;
      }
    }
    MergedIsFirst(bs, first, generic, verb, path, f, g, |bs|);
    r := None;
  }

  /** When the merge has skipped everything before `c`, nothing before `c` matches. */
  lemma MergedIsFirst(bs: seq<Binding>, first: seq<nat>, generic: seq<nat>, verb: Verb, path: string, f: nat, g: nat,
      c: nat)
    requires Candidates(bs, first, generic, verb, path)
    requires f <= |first| && g <= |generic| && c <= |bs|
    requires (f < |first| ==> c <= first[f]) && (g < |generic| ==> c <= generic[g])
    requires Skipped(bs, first[..f], path) && Skipped(bs, generic[..g], path)
    ensures forall j :: 0 <= j < c ==> !Hit(bs[j], verb, path)
  {
    forall j | 0 <= j < c
      ensures !Hit(bs[j], verb, path)
    {
      if Hit(bs[j], verb, path) {
        HitIsListed(bs, first, generic, verb, path, j);
      }
    }
  }

  // ----- the table -----

  datatype Table = Table(
    routes: seq<Binding>, exactCount: nat, exactSlots: seq<Option<nat>>,
    trie: Trie, buckets: seq<Bucket>, bucketSlots: seq<Option<nat>>, verbs: set<Verb>)

  function RouteKeys(bs: seq<Binding>): (r: seq<Key>)
    ensures |r| == |bs|
    ensures forall i :: 0 <= i < |bs| ==> r[i] == Key(bs[i].verb, bs[i].source)
  {
    seq(|bs|, i requires 0 <= i < |bs| => Key(bs[i].verb, bs[i].source))
  }

  function Verbs(bs: seq<Binding>): set<Verb> {
    set i | 0 <= i < |bs| :: bs[i].verb
  }

  /** Parameterless routes first, then the parameter routes in their order. */
  ghost predicate Arranged(routes: seq<Binding>, exactCount: nat) {
    && exactCount <= |routes|
    && (forall i :: 0 <= i < |routes| ==> Runnable(routes[i]))
    && (forall i :: 0 <= i < exactCount ==> Exact(routes[i]))
    && (forall i :: exactCount <= i < |routes| ==> !Exact(routes[i]))
    && Sorted(routes[exactCount..])
  }

  ghost predicate TableOk(t: Table, s: Shape, hash: Key -> nat) {
    && Arranged(t.routes, t.exactCount)
    && t.verbs == Verbs(t.routes)
    && (t.exactSlots == [] <==> t.exactCount == 0)
    && ProbeTable.Stored(t.exactSlots, RouteKeys(t.routes[..t.exactCount]), hash)
    && Valid(t.trie, s) && Indexes(t.trie, s, t.routes[t.exactCount..], |t.routes| - t.exactCount)
    && Grouped(t.buckets, t.routes[t.exactCount..], |t.routes| - t.exactCount)
    && (t.buckets == [] <==> t.exactCount == |t.routes|)
    && ProbeTable.Stored(t.bucketSlots, BucketKeys(t.buckets), hash)
  }

  /** sl_http_route_table_partition_exact_first: in place, by swapping. */
  method PartitionExactFirst(entries: array<Binding>) returns (exactCount: nat)
    modifies entries
    ensures exactCount <= entries.Length
    ensures multiset(entries[..]) == multiset(old(entries[..]))
    ensures entries[..exactCount] == ExactOnly(old(entries[..]))
    ensures forall i :: exactCount <= i < entries.Length ==> !Exact(entries[i])
  {
    exactCount := 0;
    ghost var before := entries[..];
    for index := 0 to entries.Length
      invariant Partitioned(before, entries[..], index, exactCount)
    {
      ghost var now := entries[..];
      PartitionStep(before, now, index, exactCount);
      if Exact(entries[index]) {
        if index != exactCount {
          Swap(entries, index, exactCount);
        }
        assert entries[..] == Swapped(now, index, exactCount);
        exactCount := exactCount + 1;
      }
    }
    PartitionDone(before, entries[..], exactCount);
    assert forall i :: 0 <= i < entries.Length ==> entries[i] == entries[..][i];
  }

  lemma PartitionDone(before: seq<Binding>, now: seq<Binding>, exactCount: nat)
    requires Partitioned(before, now, |now|, exactCount)
    ensures now[..exactCount] == ExactOnly(before)
  {
    assert before[..|before|] == before;
  }

  method Swap(a: array<Binding>, i: nat, j: nat)
    requires i < a.Length && j < a.Length
    modifies a
    ensures a[..] == Swapped(old(a[..]), i, j)
  {
    a[i], a[j] := a[j], a[i];
  }

  function Swapped(s: seq<Binding>, i: nat, j: nat): seq<Binding>
    requires i < |s| && j < |s|
  {
    s[i := s[j]][j := s[i]]
  }

  /** After `index` entries: the parameterless ones in front, the rest untouched. */
  ghost predicate Partitioned(before: seq<Binding>, now: seq<Binding>, index: nat, exactCount: nat) {
    && exactCount <= index <= |now| == |before|
    && multiset(now) == multiset(before)
    && now[..exactCount] == ExactOnly(before[..index])
    && (forall i :: exactCount <= i < index ==> !Exact(now[i]))
    && now[index..] == before[index..]
  }

  lemma PartitionStep(before: seq<Binding>, now: seq<Binding>, index: nat, exactCount: nat)
    requires Partitioned(before, now, index, exactCount) && index < |now|
    ensures !Exact(now[index]) ==> Partitioned(before, now, index + 1, exactCount)
    ensures Exact(now[index]) ==> Partitioned(before, Swapped(now, index, exactCount), index + 1, exactCount + 1)
    ensures Swapped(now, index, index) == now
  {
    var next := Swapped(now, index, exactCount);
    assert now[index] == now[index..][0] == before[index];
    FilterSnoc(before[..index], Exact, before[index]);
    assert before[..index + 1] == before[..index] + [before[index]];
    assert now[index + 1..] == now[index..][1..] && before[index + 1..] == before[index..][1..];
    assert next[index + 1..] == now[index + 1..];
    assert next[..exactCount] == now[..exactCount];
    assert next[..exactCount + 1] == next[..exactCount] + [now[index]];
    SwapKeeps(now, index, exactCount);
  }

  lemma SwapKeeps(s: seq<Binding>, i: nat, j: nat)
    requires j <= i < |s|
    ensures multiset(Swapped(s, i, j)) == multiset(s)
  {
    if j < i {
      assert s == s[..j] + [s[j]] + s[j + 1..i] + [s[i]] + s[i + 1..];
      assert Swapped(s, i, j) == s[..j] + [s[i]] + s[j + 1..i] + [s[j]] + s[i + 1..];
    } else {
      assert Swapped(s, i, j) == s;
    }
  }

  function ExactOnly(bs: seq<Binding>): seq<Binding> {
    Filter(bs, Exact)
  }

  lemma {:induction false} PowersDouble(m: nat, n: nat)
    requires PowerOfTwo(m) && PowerOfTwo(n) && m < n
    ensures 2 * m <= n
  {
    if m > 1 {
      PowersDouble(m / 2, n / 2);
    }
  }

  lemma DoubleIsPower(n: nat)
    requires PowerOfTwo(n)
    ensures PowerOfTwo(2 * n)
  {
    assert 2 * n / 2 == n;
  }

  /** The least power of two that is at least `target`. */
  ghost predicate LeastPower(target: nat, n: nat) {
    PowerOfTwo(n) && n >= target && forall m: nat :: PowerOfTwo(m) && m >= target ==> n <= m
  }

  /** sl_http_dispatch_next_bucket_count: the first power of two that is at least twice the count. */
  method NextBucketCount(value: nat) returns (r: Option<nat>)
    ensures r.Some? ==> LeastPower(2 * value, r.value)
    ensures r.None? ==> value > SIZE_MAX / 4
  {
    if 2 * value > SIZE_MAX {
      return None;
    }
    var target, count := 2 * value, 1;
    while count < target
      invariant PowerOfTwo(count) && (count == 1 || count < 2 * target)
      invariant forall m: nat :: PowerOfTwo(m) && m >= target ==> count <= m
      decreases target - count
    {
      if count > SIZE_MAX / 2 {
        return None;
      }
      DoubleIsPower(count);
      forall m: nat | PowerOfTwo(m) && m >= target
        ensures 2 * count <= m
      {
        PowersDouble(count, m);
      }
      count := 2 * count;
    }
    r := Some(count);
  }

  /** An index over a list of keys; no index for no keys. */
  method BuildSlots(keys: seq<Key>, hash: Key -> nat) returns (r: Option<seq<Option<nat>>>)
    ensures r.Some? ==> ProbeTable.Stored(r.value, keys, hash) && (r.value == [] <==> keys == [])
    ensures r.Some? && keys != [] ==> LeastPower(2 * |keys|, |r.value|)
    ensures r.None? ==> |keys| > SIZE_MAX / 4
  {
    if keys == [] {
      return Some([]);
    }
    var n := NextBucketCount(|keys|);
    if n.None? {
      return None;
    }
    var slots: seq<Option<nat>> := seq(n.value, _ => None);
    assert ProbeTable.Occupied(slots) == {};
    for i := 0 to |keys|
      invariant |slots| == n.value && |ProbeTable.Occupied(slots)| == i
      invariant ProbeTable.Stored(slots, keys[..i], hash)
    {
      var next := ProbeTable.Insert(slots, keys[..i], keys[i], hash, i);
      assert keys[..i + 1] == keys[..i] + [keys[i]];
      slots := next.value;
    }
    assert keys[..|keys|] == keys;
    r := Some(slots);
  }

  lemma DistinctNext<K>(keys: seq<K>, i: nat)
    requires i < |keys| && Distinct(keys[..i]) && keys[i] !in keys[..i]
    ensures Distinct(keys[..i + 1])
  {
    assert keys[..i + 1] == keys[..i] + [keys[i]];
  }

  /** sl_http_route_table_has_duplicate_plan_routes, by a table of the routes seen so far. */
  method HasDuplicates<K(==)>(keys: seq<K>, hash: K -> nat) returns (r: Option<bool>)
    ensures r.Some? ==> (r.value <==> !Distinct(keys))
    ensures r.None? ==> |keys| > SIZE_MAX / 4
  {
    if |keys| < 2 {
      return Some(false);
    }
    var n := NextBucketCount(|keys|);
    if n.None? {
      return None;
    }
    var slots: seq<Option<nat>> := seq(n.value, _ => None);
    assert ProbeTable.Occupied(slots) == {};
    for i := 0 to |keys|
      invariant |slots| == n.value && |ProbeTable.Occupied(slots)| == i
      invariant ProbeTable.Stored(slots, keys[..i], hash) && Distinct(keys[..i])
    {
      var seen := ProbeTable.Find(slots, keys[..i], keys[i], hash);
      if seen.Some? {
        assert keys[seen.value] == keys[..i][seen.value] == keys[i];
        return Some(true);
      }
      DistinctNext(keys, i);
      var next := ProbeTable.Insert(slots, keys[..i], keys[i], hash, i);
      assert keys[..i + 1] == keys[..i] + [keys[i]];
      slots := next.value;
    }
    assert keys[..|keys|] == keys;
    r := Some(false);
  }

  /** The plan's routes, arranged: parameterless in plan order, then the sorted rest. */
  method ArrangeRoutes(entries: seq<Binding>) returns (routes: seq<Binding>, exactCount: nat)
    requires DistinctOrders(entries) && forall i :: 0 <= i < |entries| ==> Runnable(entries[i])
    ensures Arranged(routes, exactCount) && multiset(routes) == multiset(entries)
    ensures routes[..exactCount] == ExactOnly(entries)
  {
    var a := new Binding[|entries|](i requires 0 <= i < |entries| => entries[i]);
    assert a[..] == entries;
    exactCount := PartitionExactFirst(a);
    ghost var now := a[..];
    var exact, rest := a[..exactCount], a[exactCount..];
    assert now == exact + rest;
    routes := exact + SortRoutes(rest);
    FilterSatisfies(entries, Exact);
    SortKeeps(rest);
    ArrangedParts(entries, exact, rest);
  }

  lemma ArrangedParts(entries: seq<Binding>, exact: seq<Binding>, rest: seq<Binding>)
    requires DistinctOrders(entries) && forall i :: 0 <= i < |entries| ==> Runnable(entries[i])
    requires multiset(exact + rest) == multiset(entries)
    requires forall i :: 0 <= i < |exact| ==> Exact(exact[i])
    requires forall i :: 0 <= i < |rest| ==> !Exact(rest[i])
    ensures Arranged(exact + SortRoutes(rest), |exact|) && multiset(exact + SortRoutes(rest)) == multiset(entries)
  {
    SortKeeps(rest);
    var routes := exact + SortRoutes(rest);
    forall i | 0 <= i < |routes|
      ensures Runnable(routes[i])
    {
      assert routes[i] in multiset(routes);
      assert routes[i] in entries;
    }
    forall i | |exact| <= i < |routes|
      ensures !Exact(routes[i])
    {
      assert routes[i] == SortRoutes(rest)[i - |exact|];
      assert routes[i] in multiset(rest);
    }
    DistinctPart(entries, exact, rest);
    SortSorts(rest);
    assert routes[|exact|..] == SortRoutes(rest);
  }

  /** A part of a permutation of distinct orders has distinct orders. */
  lemma DistinctPart(entries: seq<Binding>, exact: seq<Binding>, rest: seq<Binding>)
    requires DistinctOrders(entries) && multiset(exact + rest) == multiset(entries)
    ensures DistinctOrders(rest)
  {
    forall i, j | 0 <= i < j < |rest|
      ensures rest[i].order != rest[j].order
    {
      var all := exact + rest;
      assert all[|exact| + i] == rest[i] && all[|exact| + j] == rest[j];
      TwoOccurrences(entries, all, |exact| + i, |exact| + j);
    }
  }

  /** The trie, the candidate buckets and their index. */
  method BuildParamIndexes(params: seq<Binding>, hash: Key -> nat)
    returns (trie: Trie, ghost s: Shape, buckets: seq<Bucket>, slots: Option<seq<Option<nat>>>)
    requires Sorted(params)
    ensures Valid(trie, s) && Indexes(trie, s, params, |params|)
    ensures Grouped(buckets, params, |params|) && (buckets == [] <==> params == [])
    ensures slots.Some? ==> ProbeTable.Stored(slots.value, BucketKeys(buckets), hash)
    ensures slots.None? ==> |params| > SIZE_MAX / 4
  {
    trie, s := BuildTrie(params);
    buckets := BuildBuckets(params);
    slots := BuildSlots(BucketKeys(buckets), hash);
  }

  method BuildIndexes(routes: seq<Binding>, exactCount: nat, hash: Key -> nat)
    returns (r: Option<Table>, ghost s: Shape)
    requires Arranged(routes, exactCount)
    ensures r.Some? ==> TableOk(r.value, s, hash) && r.value.routes == routes && r.value.exactCount == exactCount
    ensures r.None? ==> |routes| > SIZE_MAX / 4
  {
    var trie, buckets, bucketSlots;
    trie, s, buckets, bucketSlots := BuildParamIndexes(routes[exactCount..], hash);
    var exactSlots := BuildSlots(RouteKeys(routes[..exactCount]), hash);
    if bucketSlots.None? || exactSlots.None? {
      return None, s;
    }
    r := Some(Table(routes, exactCount, exactSlots.value, trie, buckets, bucketSlots.value, Verbs(routes)));
  }

  /** sl_http_route_table_build, from the parsed entries on; parameterless routes stay in Plan order. */
  method BuildEntries(entries: seq<Binding>, hash: Key -> nat) returns (r: Option<Table>, ghost s: Shape)
    requires DistinctOrders(entries) && forall i :: 0 <= i < |entries| ==> Runnable(entries[i])
    ensures r.Some? ==> TableOk(r.value, s, hash) && multiset(r.value.routes) == multiset(entries)
    ensures r.Some? ==> r.value.routes[..r.value.exactCount] == ExactOnly(entries)
    ensures r.None? ==> |entries| > SIZE_MAX / 4
  {
    var routes, exactCount := ArrangeRoutes(entries);
    assert |routes| == |multiset(routes)| == |multiset(entries)| == |entries|;
    r, s := BuildIndexes(routes, exactCount, hash);
  }
}
