/**
 The segment trie over the parameter routes (src/core/http_dispatch.c,
 sl_http_route_table_build_param_trie and sl_http_dispatch_match_param_trie_for_method).

 Nodes and edges live in two growing tables; the edges of a node are linked through `next`.
 The lookup is greedy: at every node it commits to the most specific edge that takes the
 segment and never backs up.  The main result is that whatever it finds is the first match
 of the sorted route list.
*/
module RouteTrie {
  import opened Prelude
  import opened RoutePatterns
  import opened RouteParser
  import opened RouteMatching
  import opened RouteOrder

  /** What an edge tests; parameter names do not take part. */
  datatype Label = Text(text: string) | Kind(kind: ParamKind)

  datatype Edge = Edge(test: Label, child: nat, next: Option<nat>)
  datatype TrieNode = TrieNode(terminal: Option<nat>, first: Option<nat>)
  datatype Trie = Trie(roots: seq<(Verb, nat)>, nodes: seq<TrieNode>, last: seq<Option<nat>>, edges: seq<Edge>)

  /** The place of a node: the method and the labels from its root. */
  datatype Place = Place(verb: Verb, labels: seq<Label>)

  /** What the links mean: the place of each node, its edges in order, the owner of each edge. */
  datatype Shape = Shape(places: seq<Place>, chains: seq<seq<nat>>, owner: seq<nat>)

  function LabelOf(s: Segment): Label {
    match s
    case Static(text) => Text(text)
    case Param(_, kind) => Kind(kind)
  }

  function Labels(segments: seq<Segment>): (r: seq<Label>)
    ensures |r| == |segments|
    ensures forall i :: 0 <= i < |r| ==> r[i] == LabelOf(segments[i])
  {
    seq(|segments|, i requires 0 <= i < |segments| => LabelOf(segments[i]))
  }

  // ----- the invariant of the tables -----

  /** Link `i` of a node's chain: it belongs to the node and points to the next one. */
  ghost predicate LinkOk(t: Trie, s: Shape, n: nat, i: nat)
    requires n < |s.chains| && i < |s.chains[n]| && |s.owner| == |t.edges|
  {
    var chain := s.chains[n];
    && chain[i] < |t.edges|
    && s.owner[chain[i]] == n
    && t.edges[chain[i]].next == (if i + 1 < |chain| then Some(chain[i + 1]) else None)
  }

  ghost predicate ChainOk(t: Trie, s: Shape, n: nat)
    requires n < |t.nodes| == |s.chains| == |t.last| && |s.owner| == |t.edges|
  {
    var chain := s.chains[n];
    && t.nodes[n].first == (if chain == [] then None else Some(chain[0]))
    && t.last[n] == (if chain == [] then None else Some(chain[|chain| - 1]))
    && forall i :: 0 <= i < |chain| ==> LinkOk(t, s, n, i)
  }

  ghost predicate EdgeOk(t: Trie, s: Shape, e: nat)
    requires e < |t.edges| == |s.owner| && |t.nodes| == |s.chains| == |s.places|
  {
    && s.owner[e] < |t.nodes|
    && t.edges[e].child < |t.nodes|
    && e in s.chains[s.owner[e]]
    && s.places[t.edges[e].child] == Below(s.places[s.owner[e]], t.edges[e].test)
  }

  function Below(p: Place, l: Label): Place {
    Place(p.verb, p.labels + [l])
  }

  ghost predicate Sized(t: Trie, s: Shape) {
    |t.nodes| == |s.chains| == |s.places| == |t.last| && |s.owner| == |t.edges|
  }

  ghost predicate Linked(t: Trie, s: Shape) {
    && Sized(t, s)
    && (forall n :: 0 <= n < |t.nodes| ==> ChainOk(t, s, n))
    && (forall e :: 0 <= e < |t.edges| ==> EdgeOk(t, s, e))
  }

  ghost predicate Placed(t: Trie, s: Shape)
    requires Sized(t, s)
  {
    && (forall a, b :: 0 <= a < b < |t.nodes| ==> s.places[a] != s.places[b])
    && (forall n :: 0 <= n < |t.nodes| && s.places[n].labels != [] ==> IsChild(t, n))
    && (forall i :: 0 <= i < |t.roots| ==>
          t.roots[i].1 < |t.nodes| && s.places[t.roots[i].1] == Place(t.roots[i].0, []))
    && (forall n :: 0 <= n < |t.nodes| && s.places[n].labels == [] ==> (s.places[n].verb, n) in t.roots)
  }

  ghost predicate IsChild(t: Trie, n: nat) {
    exists e :: 0 <= e < |t.edges| && t.edges[e].child == n
  }

  ghost predicate Valid(t: Trie, s: Shape) {
    Linked(t, s) && Placed(t, s)
  }

  /** An edge leads from `n` along `l` exactly to the node placed there. */
  lemma EdgeToPlace(t: Trie, s: Shape, n: nat, l: Label, m: nat)
    requires Valid(t, s) && n < |t.nodes| && m < |t.nodes| && s.places[m] == Below(s.places[n], l)
    ensures exists e :: e in s.chains[n] && e < |t.edges| && t.edges[e].test == l && t.edges[e].child == m
  {
    assert s.places[m].labels != [];
    assert IsChild(t, m);
    var e :| 0 <= e < |t.edges| && t.edges[e].child == m;
    assert EdgeOk(t, s, e);
    var o := s.owner[e];
    assert s.places[o].labels == s.places[m].labels[..|s.places[m].labels| - 1] == s.places[n].labels;
    assert s.places[o] == s.places[n];
    assert t.edges[e].test == l;
  }

  // ----- building -----

  /** sl_http_route_table_find_param_trie_root */
  method FindRoot(t: Trie, ghost s: Shape, verb: Verb) returns (r: Option<nat>)
    requires Valid(t, s)
    ensures r.Some? ==> r.value < |t.nodes| && s.places[r.value] == Place(verb, [])
    ensures r.None? ==> Place(verb, []) !in s.places
  {
    for i := 0 to |t.roots|
      invariant forall j :: 0 <= j < i ==> t.roots[j].0 != verb
    {
      if t.roots[i].0 == verb {
        return Some(t.roots[i].1);
      }
    }
    r := None;
  }

  ghost predicate NotAmong(t: Trie, edges: seq<nat>, l: Label) {
    forall e :: e in edges ==> e < |t.edges| && t.edges[e].test != l
  }

  /** sl_http_route_table_find_trie_edge: along the links of a node. */
  method FindEdge(t: Trie, ghost s: Shape, n: nat, l: Label) returns (r: Option<nat>)
    requires Valid(t, s) && n < |t.nodes|
    ensures r.Some? ==> r.value < |t.nodes| && s.places[r.value] == Below(s.places[n], l)
    ensures r.None? ==> Below(s.places[n], l) !in s.places
  {
    assert ChainOk(t, s, n);
    ghost var chain := s.chains[n];
    ghost var k := 0;
    var at := t.nodes[n].first;
    while at.Some?
      invariant 0 <= k <= |chain|
      invariant at == (if k < |chain| then Some(chain[k]) else None)
      invariant NotAmong(t, chain[..k], l)
      decreases |chain| - k
    {
      assert chain[..k + 1] == chain[..k] + [chain[k]];
      assert LinkOk(t, s, n, k);
      var edge := t.edges[at.value];
      assert EdgeOk(t, s, at.value);
      if edge.test == l {
        return Some(edge.child);
      }
      at := edge.next;
      k := k + 1;
    }
    assert chain[..|chain|] == chain;
    if Below(s.places[n], l) in s.places {
      ghost var m :| 0 <= m < |s.places| && s.places[m] == Below(s.places[n], l);
      EdgeToPlace(t, s, n, l, m);
    }
    r := None;
  }

  /** A chain that was not touched is still in order. */
  lemma ChainStays(t: Trie, s: Shape, t2: Trie, s2: Shape, n: nat)
    requires Sized(t, s) && Sized(t2, s2) && n < |t.nodes| && n < |t2.nodes| && ChainOk(t, s, n)
    requires s2.chains[n] == s.chains[n] && t2.nodes[n].first == t.nodes[n].first && t2.last[n] == t.last[n]
    requires s.owner <= s2.owner
    requires forall e :: 0 <= e < |t.edges| && s.owner[e] == n ==> t2.edges[e].next == t.edges[e].next
    ensures ChainOk(t2, s2, n)
  {
    forall i | 0 <= i < |s2.chains[n]|
      ensures LinkOk(t2, s2, n, i)
    {
      assert LinkOk(t, s, n, i);
    }
  }

  /** A new root node. */
  method AddRoot(t: Trie, ghost s: Shape, verb: Verb) returns (t2: Trie, ghost s2: Shape, n: nat)
    requires Valid(t, s) && Place(verb, []) !in s.places
    ensures Valid(t2, s2) && n == |t.nodes|
    ensures s2.places == s.places + [Place(verb, [])]
    ensures t2.nodes == t.nodes + [TrieNode(None, None)] && t2.edges == t.edges
  {
    n := |t.nodes|;
    t2 := Trie(t.roots + [(verb, n)], t.nodes + [TrieNode(None, None)], t.last + [None], t.edges);
    s2 := Shape(s.places + [Place(verb, [])], s.chains + [[]], s.owner);
    forall m | 0 <= m < |t2.nodes|
      ensures ChainOk(t2, s2, m)
    {
      if m < n {
        ChainStays(t, s, t2, s2, m);
      }
    }
    forall e | 0 <= e < |t2.edges|
      ensures EdgeOk(t2, s2, e)
    {
      assert EdgeOk(t, s, e);
    }
    forall m | 0 <= m < |t2.nodes| && s2.places[m].labels == []
      ensures (s2.places[m].verb, m) in t2.roots
    {
      if m == n {
        assert t2.roots[|t.roots|] == (verb, n);
      }
    }
    forall m | 0 <= m < |t2.nodes| && s2.places[m].labels != []
      ensures IsChild(t2, m)
    {
      assert IsChild(t, m);
      var e :| 0 <= e < |t.edges| && t.edges[e].child == m;
      assert t2.edges[e].child == m;
    }
  }

  /** A new edge at the end of the chain of `n`, and its child (append_trie_edge). */
  method AddEdge(t: Trie, ghost s: Shape, n: nat, l: Label) returns (t2: Trie, ghost s2: Shape, child: nat)
    requires Valid(t, s) && n < |t.nodes| && Below(s.places[n], l) !in s.places
    ensures Valid(t2, s2) && child == |t.nodes| && t2.roots == t.roots
    ensures s2.places == s.places + [Below(s.places[n], l)]
    ensures |t2.edges| == |t.edges| + 1 && |t2.nodes| == |t.nodes| + 1
    ensures t2.nodes[child].terminal == None
    ensures forall m :: 0 <= m < |t.nodes| ==> t2.nodes[m].terminal == t.nodes[m].terminal
  {
    child := |t.nodes|;
    var e := |t.edges|;
    var edges, nodes := t.edges + [Edge(l, child, None)], t.nodes;
    assert ChainOk(t, s, n);
    if nodes[n].first.None? {
      nodes := nodes[n := nodes[n].(first := Some(e))];
    } else {
      var tail := t.last[n].value;
      assert LinkOk(t, s, n, |s.chains[n]| - 1);
      edges := edges[tail := edges[tail].(next := Some(e))];
    }
    t2 := Trie(t.roots, nodes + [TrieNode(None, None)], t.last[n := Some(e)] + [None], edges);
    s2 := Shape(s.places + [Below(s.places[n], l)], s.chains[n := s.chains[n] + [e]] + [[]], s.owner + [n]);
    AppendKeepsLinks(t, s, t2, s2, n, l);
    AppendKeepsPlaces(t, s, t2, s2, n, l);
  }

  /** The two tables before and after an edge was appended to the chain of `n`. */
  ghost predicate Appended(t: Trie, s: Shape, t2: Trie, s2: Shape, n: nat, l: Label) {
    && Valid(t, s) && Sized(t2, s2) && n < |t.nodes| && Below(s.places[n], l) !in s.places
    && |t2.nodes| == |t.nodes| + 1 && |t2.edges| == |t.edges| + 1 && t2.roots == t.roots
    && s2 == Shape(s.places + [Below(s.places[n], l)], s.chains[n := s.chains[n] + [|t.edges|]] + [[]], s.owner + [n])
    && t2.edges[|t.edges|] == Edge(l, |t.nodes|, None)
    && t2.nodes[|t.nodes|] == TrieNode(None, None)
    && t2.last == t.last[n := Some(|t.edges|)] + [None]
    && (forall m :: 0 <= m < |t.nodes| && m != n ==> t2.nodes[m] == t.nodes[m])
    && t2.nodes[n].first == (if s.chains[n] == [] then Some(|t.edges|) else t.nodes[n].first)
    && (forall e :: 0 <= e < |t.edges| ==>
          && t2.edges[e].test == t.edges[e].test && t2.edges[e].child == t.edges[e].child
          && t2.edges[e].next == (if t.last[n] == Some(e) then Some(|t.edges|) else t.edges[e].next))
  }

  lemma AppendKeepsLinks(t: Trie, s: Shape, t2: Trie, s2: Shape, n: nat, l: Label)
    requires Appended(t, s, t2, s2, n, l)
    ensures Linked(t2, s2)
  {
    forall m | 0 <= m < |t2.nodes|
      ensures ChainOk(t2, s2, m)
    {
      if m == n {
        AppendExtendsChain(t, s, t2, s2, n, l);
      } else if m < |t.nodes| {
        AppendSparesChain(t, s, t2, s2, n, l, m);
      }
    }
    forall e | 0 <= e < |t2.edges|
      ensures EdgeOk(t2, s2, e)
    {
      if e < |t.edges| {
        assert EdgeOk(t, s, e);
      } else {
        assert s2.chains[n][|s.chains[n]|] == e;
      }
    }
  }

  lemma AppendSparesChain(t: Trie, s: Shape, t2: Trie, s2: Shape, n: nat, l: Label, m: nat)
    requires Appended(t, s, t2, s2, n, l) && m < |t.nodes| && m != n
    ensures ChainOk(t2, s2, m)
  {
    assert ChainOk(t, s, m) && ChainOk(t, s, n);
    assert s.chains[n] != [] ==> LinkOk(t, s, n, |s.chains[n]| - 1);
    ChainStays(t, s, t2, s2, m);
  }

  lemma AppendExtendsChain(t: Trie, s: Shape, t2: Trie, s2: Shape, n: nat, l: Label)
    requires Appended(t, s, t2, s2, n, l)
    ensures ChainOk(t2, s2, n)
  {
    assert ChainOk(t, s, n);
    var chain := s.chains[n];
    assert chain != [] ==> LinkOk(t, s, n, |chain| - 1);
    forall i | 0 <= i < |s2.chains[n]|
      ensures LinkOk(t2, s2, n, i)
    {
      if i < |chain| {
        assert LinkOk(t, s, n, i);
      }
    }
  }

  lemma AppendKeepsPlaces(t: Trie, s: Shape, t2: Trie, s2: Shape, n: nat, l: Label)
    requires Appended(t, s, t2, s2, n, l)
    ensures Placed(t2, s2)
  {
    forall m | 0 <= m < |t2.nodes| && s2.places[m].labels != []
      ensures IsChild(t2, m)
    {
      if m < |t.nodes| {
        assert IsChild(t, m);
        var e :| 0 <= e < |t.edges| && t.edges[e].child == m;
        assert t2.edges[e].child == m;
      } else {
        assert t2.edges[|t.edges|].child == m;
      }
    }
  }

  // ----- what the trie says about the routes -----

  function PlaceOf(b: Binding): Place {
    Place(b.verb, Labels(b.segments))
  }

  ghost predicate IsFirstAt(bs: seq<Binding>, count: nat, place: Place, terminal: Option<nat>)
    requires count <= |bs|
  {
    if terminal.Some? then
      terminal.value < count && PlaceOf(bs[terminal.value]) == place &&
      forall j :: 0 <= j < terminal.value ==> PlaceOf(bs[j]) != place
    else forall j :: 0 <= j < count ==> PlaceOf(bs[j]) != place
  }

  /** Every prefix of a route is a node. */
  ghost predicate Spelled(s: Shape, b: Binding, k: nat) {
    forall j :: 0 <= j <= k && j <= |b.segments| ==> Place(b.verb, Labels(b.segments)[..j]) in s.places
  }

  ghost predicate Indexes(t: Trie, s: Shape, bs: seq<Binding>, count: nat)
    requires Sized(t, s) && count <= |bs|
  {
    && (forall n :: 0 <= n < |t.nodes| ==> IsFirstAt(bs, count, s.places[n], t.nodes[n].terminal))
    && (forall i :: 0 <= i < count ==> Spelled(s, bs[i], |bs[i].segments|))
  }

  lemma WholePlace(s: Shape, b: Binding)
    requires Spelled(s, b, |b.segments|)
    ensures PlaceOf(b) in s.places
  {
    assert Labels(b.segments)[..|b.segments|] == Labels(b.segments);
  }

  /** More nodes without terminals leave the index as it is. */
  lemma GrowthKeepsIndex(t: Trie, s: Shape, t2: Trie, s2: Shape, bs: seq<Binding>, count: nat, place: Place)
    requires Sized(t, s) && Sized(t2, s2) && count <= |bs| && Indexes(t, s, bs, count)
    requires s2.places == s.places + [place] && place !in s.places && |t2.nodes| == |t.nodes| + 1
    requires t2.nodes[|t.nodes|].terminal == None
    requires forall m :: 0 <= m < |t.nodes| ==> t2.nodes[m].terminal == t.nodes[m].terminal
    ensures Indexes(t2, s2, bs, count)
  {
    forall n | 0 <= n < |t2.nodes|
      ensures IsFirstAt(bs, count, s2.places[n], t2.nodes[n].terminal)
    {
      if n < |t.nodes| {
        assert IsFirstAt(bs, count, s.places[n], t.nodes[n].terminal);
      } else {
        forall j | 0 <= j < count
          ensures PlaceOf(bs[j]) != place
        {
          WholePlace(s, bs[j]);
        }
      }
    }
    forall i | 0 <= i < count
      ensures Spelled(s2, bs[i], |bs[i].segments|)
    {
      assert Spelled(s, bs[i], |bs[i].segments|);
    }
  }

  /** The walk of an insertion stands at `node`, having spelled the first `k` labels of `b`. */
  ghost predicate Inserting(t: Trie, s: Shape, bs: seq<Binding>, count: nat, b: Binding, k: nat, node: nat) {
    && Valid(t, s) && count <= |bs| && Indexes(t, s, bs, count) && k <= |b.segments| && Spelled(s, b, k)
    && node < |t.nodes| && s.places[node] == Place(b.verb, Labels(b.segments)[..k])
  }

  method FindOrAddRoot(t0: Trie, ghost s0: Shape, ghost bs: seq<Binding>, ghost count: nat, b: Binding)
    returns (t: Trie, ghost s: Shape, node: nat)
    requires Valid(t0, s0) && count <= |bs| && Indexes(t0, s0, bs, count)
    ensures Inserting(t, s, bs, count, b, 0, node)
    ensures |t.edges| == |t0.edges| && |t.nodes| <= |t0.nodes| + 1
  {
    assert Labels(b.segments)[..0] == [];
    t, s := t0, s0;
    var root := FindRoot(t, s, b.verb);
    if root.None? {
      t, s, node := AddRoot(t, s, b.verb);
      GrowthKeepsIndex(t0, s0, t, s, bs, count, Place(b.verb, []));
    } else {
      node := root.value;
    }
  }

  method FindOrAddEdge(t0: Trie, ghost s0: Shape, ghost bs: seq<Binding>, ghost count: nat, b: Binding, k: nat,
      node0: nat)
    returns (t: Trie, ghost s: Shape, node: nat)
    requires Inserting(t0, s0, bs, count, b, k, node0) && k < |b.segments|
    ensures Inserting(t, s, bs, count, b, k + 1, node)
    ensures |t.edges| <= |t0.edges| + 1 && |t.nodes| <= |t0.nodes| + 1
  {
    var labels := Labels(b.segments);
    assert labels[..k + 1] == labels[..k] + [labels[k]];
    t, s := t0, s0;
    var found := FindEdge(t, s, node0, labels[k]);
    if found.None? {
      t, s, node := AddEdge(t, s, node0, labels[k]);
      GrowthKeepsIndex(t0, s0, t, s, bs, count, Place(b.verb, labels[..k + 1]));
    } else {
      node := found.value;
    }
  }

  /** Insertion of route `count`: follow or extend the path, then claim a free terminal. */
  method InsertRoute(t0: Trie, ghost s0: Shape, bs: seq<Binding>, count: nat) returns (t: Trie, ghost s: Shape)
    requires Valid(t0, s0) && count < |bs| && Indexes(t0, s0, bs, count)
    ensures Valid(t, s) && Indexes(t, s, bs, count + 1)
    ensures |t.edges| <= |t0.edges| + |bs[count].segments|
    ensures |t.nodes| <= |t0.nodes| + 1 + |bs[count].segments|
  {
    var b := bs[count];
    var node: nat;
    t, s, node := FindOrAddRoot(t0, s0, bs, count, b);
    for k := 0 to |b.segments|
      invariant Inserting(t, s, bs, count, b, k, node)
      invariant |t.edges| <= |t0.edges| + k && |t.nodes| <= |t0.nodes| + 1 + k
    {
      t, s, node := FindOrAddEdge(t, s, bs, count, b, k, node);
    }
    t := ClaimTerminal(t, s, bs, count, node);
  }

  method ClaimTerminal(t0: Trie, ghost s: Shape, bs: seq<Binding>, count: nat, node: nat) returns (t: Trie)
    requires count < |bs| && Inserting(t0, s, bs, count, bs[count], |bs[count].segments|, node)
    ensures Valid(t, s) && Indexes(t, s, bs, count + 1)
    ensures |t.edges| == |t0.edges| && |t.nodes| == |t0.nodes|
  {
    var labels := Labels(bs[count].segments);
    assert labels[..|labels|] == labels;
    t := t0;
    if t.nodes[node].terminal.None? {
      t := t.(nodes := t.nodes[node := t.nodes[node].(terminal := Some(count))]);
      TerminalKeepsValid(t0, s, t, node);
    }
    TerminalIndexes(t0, s, t, node, bs, count);
  }

  lemma TerminalKeepsValid(t: Trie, s: Shape, t2: Trie, node: nat)
    requires Valid(t, s) && node < |t.nodes|
    requires exists i :: t2 == t.(nodes := t.nodes[node := t.nodes[node].(terminal := i)])
    ensures Valid(t2, s)
  {
    forall n | 0 <= n < |t2.nodes|
      ensures ChainOk(t2, s, n)
    {
      ChainStays(t, s, t2, s, n);
    }
    forall e | 0 <= e < |t2.edges|
      ensures EdgeOk(t2, s, e)
    {
      assert EdgeOk(t, s, e);
    }
    forall m | 0 <= m < |t2.nodes| && s.places[m].labels != []
      ensures IsChild(t2, m)
    {
      assert IsChild(t, m);
      var e :| 0 <= e < |t.edges| && t.edges[e].child == m;
      assert t2.edges[e].child == m;
    }
  }

  lemma TerminalIndexes(t: Trie, s: Shape, t2: Trie, node: nat, bs: seq<Binding>, count: nat)
    requires Valid(t, s) && Sized(t2, s) && count < |bs| && Indexes(t, s, bs, count) && node < |t.nodes|
    requires s.places[node] == PlaceOf(bs[count]) && Spelled(s, bs[count], |bs[count].segments|)
    requires t2.nodes == if t.nodes[node].terminal.None? then t.nodes[node := t.nodes[node].(terminal := Some(count))]
             else t.nodes
    ensures Indexes(t2, s, bs, count + 1)
  {
    forall n | 0 <= n < |t2.nodes|
      ensures IsFirstAt(bs, count + 1, s.places[n], t2.nodes[n].terminal)
    {
      assert IsFirstAt(bs, count, s.places[n], t.nodes[n].terminal);
      if n != node {
        assert s.places[n] != PlaceOf(bs[count]);
      }
    }
  }

  function TotalSegments(bs: seq<Binding>): nat {
    if bs == [] then 0 else TotalSegments(bs[..|bs| - 1]) + |bs[|bs| - 1].segments|
  }

  /** sl_http_route_table_build_param_trie: the tables never outgrow their allocation. */
  method BuildTrie(bs: seq<Binding>) returns (t: Trie, ghost s: Shape)
    ensures Valid(t, s) && Indexes(t, s, bs, |bs|)
    ensures |t.edges| <= TotalSegments(bs) && |t.nodes| <= TotalSegments(bs) + |bs|
  {
    t, s := Trie([], [], [], []), Shape([], [], []);
    assert bs[..0] == [];
    for count := 0 to |bs|
      invariant Valid(t, s) && Indexes(t, s, bs, count)
      invariant |t.edges| <= TotalSegments(bs[..count]) && |t.nodes| <= TotalSegments(bs[..count]) + count
    {
      assert bs[..count + 1][..count] == bs[..count];
      t, s := InsertRoute(t, s, bs, count);
    }
    assert bs[..|bs|] == bs;
  }

  // ----- the greedy lookup -----

  predicate LabelTakes(l: Label, piece: string) {
    piece != "" && match l
      case Text(text) => text == piece
      case Kind(kind) => KindMatches(kind, piece)
  }

  function LabelRank(l: Label): nat {
    if l.Text? then 0 else if l.kind != StringParam then 1 else 2
  }

  /** Of all labels of one rank at most one takes a given piece. */
  lemma RankDecides(a: Label, b: Label, piece: string)
    requires LabelTakes(a, piece) && LabelTakes(b, piece) && LabelRank(a) == LabelRank(b)
    ensures a == b
  {
    if a.Kind? && a.kind != StringParam {
      ConstraintsAreExclusive(a.kind, b.kind, piece);
    }
  }

  ghost predicate InChain(t: Trie, s: Shape, n: nat, e: nat) {
    n < |s.chains| && e in s.chains[n] && e < |t.edges|
  }

  /** The most specific edge of `n` that takes the piece. */
  ghost predicate IsBest(t: Trie, s: Shape, n: nat, piece: string, r: Option<nat>) {
    if r.Some? then
      InChain(t, s, n, r.value) && LabelTakes(t.edges[r.value].test, piece) &&
      forall e: nat :: InChain(t, s, n, e) && LabelTakes(t.edges[e].test, piece)
                  ==> LabelRank(t.edges[r.value].test) <= LabelRank(t.edges[e].test)
    else forall e: nat :: InChain(t, s, n, e) ==> !LabelTakes(t.edges[e].test, piece)
  }

  /** sl_http_dispatch_find_best_trie_edge */
  method BestEdge(t: Trie, ghost s: Shape, n: nat, piece: string) returns (r: Option<nat>)
    requires Valid(t, s) && n < |t.nodes| && piece != ""
    ensures IsBest(t, s, n, piece, r)
  {
    assert ChainOk(t, s, n);
    ghost var chain := s.chains[n];
    ghost var k := 0;
    var at := t.nodes[n].first;
    var constrained: Option<nat>, unconstrained: Option<nat> := None, None;
    while at.Some?
      invariant 0 <= k <= |chain|
      invariant at == (if k < |chain| then Some(chain[k]) else None)
      invariant constrained.Some? ==>
                  InChain(t, s, n, constrained.value) && LabelRank(t.edges[constrained.value].test) == 1
                                      && LabelTakes(t.edges[constrained.value].test, piece)
      invariant unconstrained.Some? ==>
                  InChain(t, s, n, unconstrained.value) && LabelRank(t.edges[unconstrained.value].test) == 2
                                        && LabelTakes(t.edges[unconstrained.value].test, piece)
      invariant forall i :: 0 <= i < k ==> Passed(t, s, n, i, piece, constrained, unconstrained)
      decreases |chain| - k
    {
      assert LinkOk(t, s, n, k);
      assert InChain(t, s, n, at.value);
      ghost var c, u := constrained, unconstrained;
      var edge := t.edges[at.value];
      if edge.test.Text? {
        if edge.test.text == piece {
          return at;
        }
      } else {
        var takes := MatchesKind(edge.test.kind, piece);
        if edge.test.kind != StringParam && constrained.None? && takes {
          constrained := at;
        } else if edge.test.kind == StringParam && unconstrained.None? && takes {
          unconstrained := at;
        }
      }
      assert Passed(t, s, n, k, piece, constrained, unconstrained);
      forall i | 0 <= i < k
        ensures Passed(t, s, n, i, piece, constrained, unconstrained)
      {
        assert Passed(t, s, n, i, piece, c, u);
      }
      at := edge.next;
      k := k + 1;
    }
    r := if constrained.Some? then constrained else unconstrained;
    BestOfChain(t, s, n, piece, constrained, unconstrained);
  }

  /** An edge that was passed takes nothing, or a candidate at least as specific was kept. */
  ghost predicate Passed(t: Trie, s: Shape, n: nat, i: nat, piece: string, constrained: Option<nat>,
      unconstrained: Option<nat>)
    requires n < |s.chains|
  {
    i < |s.chains[n]| && s.chains[n][i] < |t.edges| &&
    var l := t.edges[s.chains[n][i]].test;
    LabelTakes(l, piece) ==>
      || (LabelRank(l) == 1 && constrained.Some?)
      || (LabelRank(l) == 2 && unconstrained.Some?)
  }

  lemma BestOfChain(t: Trie, s: Shape, n: nat, piece: string, constrained: Option<nat>, unconstrained: Option<nat>)
    requires n < |s.chains|
    requires forall i :: 0 <= i < |s.chains[n]| ==> Passed(t, s, n, i, piece, constrained, unconstrained)
    requires constrained.Some? ==>
               InChain(t, s, n, constrained.value) && LabelRank(t.edges[constrained.value].test) == 1
                                   && LabelTakes(t.edges[constrained.value].test, piece)
    requires unconstrained.Some? ==>
               InChain(t, s, n, unconstrained.value) && LabelRank(t.edges[unconstrained.value].test) == 2
                                     && LabelTakes(t.edges[unconstrained.value].test, piece)
    ensures IsBest(t, s, n, piece, if constrained.Some? then constrained else unconstrained)
  {
    forall e: nat | InChain(t, s, n, e) && LabelTakes(t.edges[e].test, piece)
      ensures (LabelRank(t.edges[e].test) == 1 && constrained.Some?)
              || (LabelRank(t.edges[e].test) == 2 && unconstrained.Some?)
    {
      var i :| 0 <= i < |s.chains[n]| && s.chains[n][i] == e;
      assert Passed(t, s, n, i, piece, constrained, unconstrained);
    }
  }

  // ----- greedy is first -----

  /** Up to `k`, the walked labels are those of `b`, or are more specific where they part. */
  ghost predicate Ahead(labels: seq<Label>, b: Binding) {
    || (|labels| <= |b.segments| && labels == Labels(b.segments)[..|labels|])
    || (exists j :: PartsAt(labels, b, j))
  }

  ghost predicate PartsAt(labels: seq<Label>, b: Binding, j: int) {
    0 <= j < |labels| && j < |b.segments| && labels[..j] == Labels(b.segments)[..j]
    && LabelRank(labels[j]) < LabelRank(LabelOf(b.segments[j]))
  }

  ghost predicate Takes(labels: seq<Label>, pieces: seq<string>) {
    |labels| <= |pieces| && forall i :: 0 <= i < |labels| ==> LabelTakes(labels[i], pieces[i])
  }

  /** One greedy step keeps the walk ahead of every matching route. */
  lemma StepStaysAhead(t: Trie, s: Shape, bs: seq<Binding>, n: nat, pieces: seq<string>, e: nat, i: nat)
    requires Valid(t, s) && Indexes(t, s, bs, |bs|) && n < |t.nodes| && i < |bs|
    requires bs[i].verb == s.places[n].verb && Matches(bs[i].segments, pieces)
    requires |s.places[n].labels| < |pieces| && Ahead(s.places[n].labels, bs[i])
    requires IsBest(t, s, n, pieces[|s.places[n].labels|], Some(e))
    ensures Ahead(s.places[n].labels + [t.edges[e].test], bs[i])
  {
    var labels, b := s.places[n].labels, bs[i];
    var k := |labels|;
    var next := labels + [t.edges[e].test];
    if labels == Labels(b.segments)[..k] {
      var l := LabelOf(b.segments[k]);
      assert SegmentMatches(b.segments[k], pieces[k]);
      assert LabelTakes(l, pieces[k]);
      assert Labels(b.segments)[..k + 1] == labels + [l];
      assert Spelled(s, b, |b.segments|);
      assert Below(s.places[n], l) in s.places;
      var m :| 0 <= m < |s.places| && s.places[m] == Below(s.places[n], l);
      EdgeToPlace(t, s, n, l, m);
      var e2 :| e2 in s.chains[n] && e2 < |t.edges| && t.edges[e2].test == l && t.edges[e2].child == m;
      assert InChain(t, s, n, e2);
      if LabelRank(t.edges[e].test) == LabelRank(l) {
        RankDecides(t.edges[e].test, l, pieces[k]);
      } else {
        assert next[..k] == labels;
        assert PartsAt(next, b, k);
      }
    } else {
      var j :| PartsAt(labels, b, j);
      assert next[..j] == labels[..j];
      assert PartsAt(next, b, j);
    }
  }

  /** A route more specific at the first difference sorts first. */
  lemma {:induction false} AheadIsLess(a: seq<Segment>, b: seq<Segment>, ao: nat, bo: nat, j: nat)
    requires j < |a| && j < |b| && Labels(a)[..j] == Labels(b)[..j] && Rank(a[j]) < Rank(b[j])
    ensures SegmentsLess(a, b, ao, bo)
    decreases j
  {
    if j > 0 {
      assert Labels(a)[..j][0] == LabelOf(a[0]) && Labels(b)[..j][0] == LabelOf(b[0]);
      assert SegmentTie(a[0], b[0]);
      assert Labels(a[1..])[..j - 1] == Labels(a)[..j][1..];
      assert Labels(b[1..])[..j - 1] == Labels(b)[..j][1..];
      AheadIsLess(a[1..], b[1..], ao, bo, j - 1);
    }
  }

  ghost predicate Hit(b: Binding, verb: Verb, path: string) {
    b.verb == verb && PathMatches(b.segments, path)
  }

  ghost predicate IsFirstHit(bs: seq<Binding>, verb: Verb, path: string, i: nat) {
    i < |bs| && Hit(bs[i], verb, path) && forall j :: 0 <= j < i ==> !Hit(bs[j], verb, path)
  }

  /** The route at a node whose labels take the whole path matches it. */
  lemma TerminalMatches(b: Binding, place: Place, path: string)
    requires PlaceOf(b) == place && StartsWith(path, '/')
    requires Takes(place.labels, Segments(path)) && |place.labels| == |Segments(path)|
    ensures Hit(b, place.verb, path)
  {
    forall i | 0 <= i < |Segments(path)|
      ensures SegmentMatches(b.segments[i], Segments(path)[i])
    {
      assert place.labels[i] == LabelOf(b.segments[i]) && LabelTakes(place.labels[i], Segments(path)[i]);
    }
  }

  /** A route the walk is ahead of, and that ends elsewhere, sorts after the one it ends on. */
  lemma TerminalIsLess(b: Binding, other: Binding, place: Place, path: string)
    requires PlaceOf(b) == place && PlaceOf(other) != place && Hit(other, place.verb, path)
    requires |place.labels| == |Segments(path)| && Ahead(place.labels, other)
    ensures Less(b, other)
  {
    var all := Labels(other.segments);
    assert |all| == |place.labels| && all[..|place.labels|] == all;
    var d :| PartsAt(place.labels, other, d);
    assert Labels(b.segments) == place.labels;
    AheadIsLess(b.segments, other.segments, b.order, other.order, d);
  }

  /** What the greedy walk ends on is the first match of the sorted list. */
  lemma WalkEndsOnFirst(t: Trie, s: Shape, bs: seq<Binding>, n: nat, path: string, r: nat)
    requires Valid(t, s) && Indexes(t, s, bs, |bs|) && Sorted(bs) && n < |t.nodes| && StartsWith(path, '/')
    requires t.nodes[n].terminal == Some(r)
    requires Takes(s.places[n].labels, Segments(path)) && |s.places[n].labels| == |Segments(path)|
    requires forall i :: 0 <= i < |bs| && Hit(bs[i], s.places[n].verb, path) ==> Ahead(s.places[n].labels, bs[i])
    ensures IsFirstHit(bs, s.places[n].verb, path, r)
  {
    var place := s.places[n];
    assert IsFirstAt(bs, |bs|, place, t.nodes[n].terminal);
    assert PlaceOf(bs[r]) == place;
    TerminalMatches(bs[r], place, path);
    forall j | 0 <= j < r
      ensures !Hit(bs[j], place.verb, path)
    {
      if Hit(bs[j], place.verb, path) {
        assert PlaceOf(bs[j]) != place;
        TerminalIsLess(bs[r], bs[j], place, path);
        LessIsStrictOrder(bs[j], bs[r], bs[j]);
      }
    }
  }

  /** Every route that matches is still behind the walk at node `n`. */
  ghost predicate Leads(t: Trie, s: Shape, bs: seq<Binding>, n: nat, path: string) {
    n < |s.places| &&
    forall i :: 0 <= i < |bs| && Hit(bs[i], s.places[n].verb, path) ==> Ahead(s.places[n].labels, bs[i])
  }

  lemma StepLeads(t: Trie, s: Shape, bs: seq<Binding>, n: nat, path: string, e: nat)
    requires Valid(t, s) && Indexes(t, s, bs, |bs|) && n < |t.nodes| && Leads(t, s, bs, n, path)
    requires |s.places[n].labels| < |Segments(path)|
    requires IsBest(t, s, n, Segments(path)[|s.places[n].labels|], Some(e))
    ensures t.edges[e].child < |t.nodes| && Leads(t, s, bs, t.edges[e].child, path)
    ensures s.places[t.edges[e].child] == Below(s.places[n], t.edges[e].test)
  {
    assert EdgeOk(t, s, e);
    assert ChainOk(t, s, n);
    var i :| 0 <= i < |s.chains[n]| && s.chains[n][i] == e;
    assert LinkOk(t, s, n, i);
    forall j | 0 <= j < |bs| && Hit(bs[j], s.places[n].verb, path)
      ensures Ahead(s.places[n].labels + [t.edges[e].test], bs[j])
    {
      StepStaysAhead(t, s, bs, n, Segments(path), e, j);
    }
  }

  /** The walk is at `node`, has taken the segments before `rest`, and leads every match. */
  ghost predicate Walking(t: Trie, s: Shape, bs: seq<Binding>, node: nat, verb: Verb, path: string, rest: seq<string>) {
    && Sized(t, s) && node < |t.nodes| && s.places[node].verb == verb && Leads(t, s, bs, node, path)
    && Takes(s.places[node].labels, Segments(path)) && rest == Segments(path)[|s.places[node].labels|..]
  }

  lemma WalkStarts(t: Trie, s: Shape, bs: seq<Binding>, root: nat, verb: Verb, path: string)
    requires Valid(t, s) && root < |t.nodes| && s.places[root] == Place(verb, [])
    ensures Walking(t, s, bs, root, verb, path, Segments(path))
  {
  }

  lemma WalkSteps(t: Trie, s: Shape, bs: seq<Binding>, node: nat, verb: Verb, path: string, rest: seq<string>, e: nat)
    requires Valid(t, s) && Indexes(t, s, bs, |bs|) && Walking(t, s, bs, node, verb, path, rest)
    requires rest != [] && IsBest(t, s, node, rest[0], Some(e))
    ensures t.edges[e].child < |t.nodes| && Walking(t, s, bs, t.edges[e].child, verb, path, rest[1..])
  {
    var k := |s.places[node].labels|;
    assert rest[0] == Segments(path)[k];
    StepLeads(t, s, bs, node, path, e);
    var next := s.places[t.edges[e].child].labels;
    assert next == s.places[node].labels + [t.edges[e].test];
  }

  lemma WalkEnds(t: Trie, s: Shape, bs: seq<Binding>, node: nat, verb: Verb, path: string)
    requires Valid(t, s) && Indexes(t, s, bs, |bs|) && Sorted(bs) && StartsWith(path, '/')
    requires Walking(t, s, bs, node, verb, path, [])
    ensures t.nodes[node].terminal.Some? ==> IsFirstHit(bs, verb, path, t.nodes[node].terminal.value)
  {
    if t.nodes[node].terminal.Some? {
      WalkEndsOnFirst(t, s, bs, node, path, t.nodes[node].terminal.value);
    }
  }

  /** sl_http_dispatch_match_param_trie_for_method */
  method MatchTrie(t: Trie, ghost s: Shape, ghost bs: seq<Binding>, verb: Verb, path: string) returns (r: Option<nat>)
    requires Valid(t, s) && Indexes(t, s, bs, |bs|) && Sorted(bs)
    ensures r.Some? ==> IsFirstHit(bs, verb, path, r.value)
  {
    if |t.nodes| == 0 {
      return None;
    }
    var root := FindRoot(t, s, verb);
    if root.None? || path == "" || path[0] != '/' {
      return None;
    }
    var node: nat := root.value;
    WalkStarts(t, s, bs, node, verb, path);
    if |path| == 1 {
      assert path == "/";
      WalkEnds(t, s, bs, node, verb, path);
      return t.nodes[node].terminal;
    }
    r := WalkDown(t, s, bs, node, verb, path);
  }

  /** One segment down: the best edge that takes the piece. */
  method Descend(t: Trie, ghost s: Shape, ghost bs: seq<Binding>, node: nat, verb: Verb, ghost path: string,
      piece: string, ghost rest: seq<string>)
    returns (r: Option<nat>)
    requires Valid(t, s) && Indexes(t, s, bs, |bs|) && Walking(t, s, bs, node, verb, path, rest)
    requires rest != [] && rest[0] == piece
    ensures r.Some? ==> Walking(t, s, bs, r.value, verb, path, rest[1..])
  {
    if piece == "" {
      return None;
    }
    var edge := BestEdge(t, s, node, piece);
    if edge.None? {
      return None;
    }
    WalkSteps(t, s, bs, node, verb, path, rest, edge.value);
    r := Some(t.edges[edge.value].child);
  }

  method WalkDown(t: Trie, ghost s: Shape, ghost bs: seq<Binding>, root: nat, verb: Verb, path: string)
    returns (r: Option<nat>)
    requires Valid(t, s) && Indexes(t, s, bs, |bs|) && Sorted(bs) && StartsWith(path, '/') && |path| > 1
    requires Walking(t, s, bs, root, verb, path, Segments(path))
    ensures r.Some? ==> IsFirstHit(bs, verb, path, r.value)
  {
    PiecesAfterSlash(path);
    var node, pos := root, 1;
    ghost var rest := Segments(path);
    while pos < |path|
      invariant 1 <= pos <= |path| && Unread(path, pos, rest)
      invariant Walking(t, s, bs, node, verb, path, rest)
    {
      NextUnread(path, pos, rest);
      var end := SegmentEnd(path, pos);
      var child := Descend(t, s, bs, node, verb, path, path[pos..end], rest);
      if child.None? {
        return None;
      }
      node := child.value;
      rest := rest[1..];
      pos := if end == |path| then end else end + 1;
    }
    if path[|path| - 1] == '/' {
      return None;
    }
    WalkEnds(t, s, bs, node, verb, path);
    r := t.nodes[node].terminal;
  }
}
