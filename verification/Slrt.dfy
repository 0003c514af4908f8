/**
 The binary route table `routes.slrt`: the compiler writes it (compiler/src/route_artifact.rs),
 the contract checker reads it back (compiler/src/compiler_contract.rs) and the runtime checks
 it against the Plan before serving (src/core/route_artifact.c).

 Bytes are characters; every multi-byte number is a run of little-endian 32-bit words.
*/
module Slrt {
  import opened Prelude
  import opened Permutations
  import opened RoutePatterns

  const WORD: nat := 0x1_0000_0000
  const HEADER_SIZE: nat := 64
  const ENTRY_SIZE: nat := 48
  const CHECKSUM_OFFSET: nat := 40
  const ENDIAN_MARKER: nat := 0x0102_0304

  // ----- little-endian numbers -----

  function Digits(v: nat, k: nat): (r: string)
    ensures |r| == k
    decreases k
  {
    if k == 0 then "" else [(v % 256) as char] + Digits(v / 256, k - 1)
  }

  function Number(s: string): nat {
    if s == "" then 0 else s[0] as nat + 256 * Number(s[1..])
  }

  function Pow256(k: nat): (r: nat)
    ensures r > 0
  {
    if k == 0 then 1 else 256 * Pow256(k - 1)
  }

  lemma {:induction false} NumberOfDigits(v: nat, k: nat)
    requires v < Pow256(k)
    ensures Number(Digits(v, k)) == v
  {
    if k > 0 {
      NumberOfDigits(v / 256, k - 1);
      assert Digits(v, k)[1..] == Digits(v / 256, k - 1);
    }
  }

  lemma NumberOfWord(v: nat)
    requires v < WORD
    ensures Number(Digits(v, WORD_BYTES)) == v
  {
    assert Pow256(4) == WORD;
    NumberOfDigits(v, WORD_BYTES);
  }

  /** The first byte counts least. */
  lemma LittleEndian(a: char, b: char, c: char, d: char)
    ensures Number([a, b, c, d]) == a as nat + 256 * b as nat + 65536 * c as nat + 16777216 * d as nat
  {
    assert [a, b, c, d][1..] == [b, c, d] && [b, c, d][1..] == [c, d] && [c, d][1..] == [d] && [d][1..] == [];
    assert Number([d]) == d as nat && Number([c, d]) == c as nat + 256 * Number([d]);
    assert Number([b, c, d]) == b as nat + 256 * Number([c, d]);
  }

  lemma NumberOfSum(v: nat)
    requires v < TWO64
    ensures Number(Digits(v, SUM_BYTES)) == v
  {
    assert Pow256(8) == 256 * Pow256(7) == 65536 * Pow256(6) == 16777216 * Pow256(5) == WORD * Pow256(4);
    NumberOfDigits(v, SUM_BYTES);
  }

  const WORD_BYTES: nat := 4
  const SUM_BYTES: nat := 8

  function Words(ws: seq<nat>): (r: string)
    ensures |r| == 4 * |ws|
  {
    if ws == [] then "" else Digits(ws[0], WORD_BYTES) + Words(ws[1..])
  }

  /** The 32-bit words of a piece of the file. */
  function Numbers(s: string): (r: seq<nat>)
    ensures |r| == |s| / 4
  {
    if |s| < 4 then [] else [Number(s[..4])] + Numbers(s[4..])
  }

  predicate Fit(ws: seq<nat>) {
    forall i :: 0 <= i < |ws| ==> ws[i] < WORD
  }

  lemma {:induction false} NumbersOfWords(ws: seq<nat>)
    requires Fit(ws)
    ensures Numbers(Words(ws)) == ws
  {
    if ws != [] {
      NumberOfWord(ws[0]);
      NumbersOfWords(ws[1..]);
      assert Words(ws)[..4] == Digits(ws[0], WORD_BYTES) && Words(ws)[4..] == Words(ws[1..]);
    }
  }

  lemma SliceOfRest(s: string, from: nat, lo: nat, hi: nat)
    requires from <= |s| && lo <= hi <= |s| - from
    ensures s[from..][lo..hi] == s[from + lo..from + hi]
  {
  }

  /** Word `i` is the number at byte `4 * i`. */
  lemma {:induction false} NumbersAt(s: string, i: nat)
    requires i < |s| / 4
    ensures Numbers(s)[i] == Number(s[4 * i..4 * i + 4])
  {
    if i > 0 {
      var at := 4 * (i - 1);
      NumbersAt(s[4..], i - 1);
      SliceOfRest(s, 4, at, at + 4);
      NumbersRest(s, i);
    }
  }

  lemma NumbersRest(s: string, i: nat)
    requires 0 < i < |s| / 4
    ensures Numbers(s)[i] == Numbers(s[4..])[i - 1]
  {
  }

  lemma SliceOfSlice(s: string, from: nat, piece: string, offset: nat, size: nat)
    requires from + |piece| <= |s| && s[from..from + |piece|] == piece && offset + size <= |piece|
    ensures s[from + offset..from + offset + size] == piece[offset..offset + size]
  {
    assert forall i :: 0 <= i < |piece| ==> piece[i] == s[from + i];
  }

  // ----- checksum -----

  const FNV_OFFSET_BASIS: nat := 0xcbf2_9ce4_8422_2325
  const FNV_PRIME: nat := 0x0000_0100_0000_01b3
  const TWO64: nat := 0x1_0000_0000_0000_0000

  /** Exclusive or of a 64-bit value with one byte: only the low byte changes. */
  function XorLow(hash: nat, byte: nat): nat {
    hash - hash % 256 + ((hash % 256) as bv8 ^ (byte % 256) as bv8) as nat
  }

  function Masked(bytes: string, i: nat): nat
    requires i < |bytes|
  {
    if CHECKSUM_OFFSET <= i < CHECKSUM_OFFSET + 8 then 0 else bytes[i] as nat
  }

  /** FNV-1a over the first `k` bytes, the checksum field read as zero. */
  function Fnv(bytes: string, k: nat): (r: nat)
    requires k <= |bytes|
    ensures r < TWO64
  {
    if k == 0 then FNV_OFFSET_BASIS else XorLow(Fnv(bytes, k - 1), Masked(bytes, k - 1)) * FNV_PRIME % TWO64
  }

  /** slrt_checksum, the runtime's loop: the byte is read, then blanked inside the field. */
  method RuntimeChecksum(bytes: string) returns (hash: nat)
    ensures hash == Fnv(bytes, |bytes|)
  {
    hash := FNV_OFFSET_BASIS;
    for index := 0 to |bytes|
      invariant hash == Fnv(bytes, index)
    {
      var byte := bytes[index] as nat;
      if index >= CHECKSUM_OFFSET && index < CHECKSUM_OFFSET + 8 {
        byte := 0;
      }
      hash := XorLow(hash, byte) * FNV_PRIME % TWO64;
    }
  }

  /** fnv1a64_with_zeroed_checksum, the emitter's loop: the field is never read. */
  method EmitterChecksum(bytes: string) returns (hash: nat)
    ensures hash == Fnv(bytes, |bytes|)
  {
    hash := FNV_OFFSET_BASIS;
    for index := 0 to |bytes|
      invariant hash == Fnv(bytes, index)
    {
      var value := if CHECKSUM_OFFSET <= index < CHECKSUM_OFFSET + 8 then 0 else bytes[index] as nat;
      hash := XorLow(hash, value);
      hash := hash * FNV_PRIME % TWO64;
    }
  }

  /** The published FNV-1a hash of the text "a". */
  lemma FnvOfA()
    ensures Fnv("a", 1) == 0xaf63_dc4c_8601_ec8c
  {
    assert Masked("a", 0) == 97 && FNV_OFFSET_BASIS % 256 == 0x25;
    assert (0x25 as bv8 ^ 97 as bv8) as nat == 0x44;
    assert XorLow(FNV_OFFSET_BASIS, 97) == FNV_OFFSET_BASIS - 0x25 + 0x44;
  }

  /** Storing the checksum does not change it. */
  lemma {:induction false} ChecksumIgnoresItsField(a: string, b: string, k: nat)
    requires k <= |a| == |b|
    requires forall i :: 0 <= i < |a| && !(CHECKSUM_OFFSET <= i < CHECKSUM_OFFSET + 8) ==> a[i] == b[i]
    ensures Fnv(a, k) == Fnv(b, k)
  {
    if k > 0 {
      ChecksumIgnoresItsField(a, b, k - 1);
    }
  }

  // ----- routes and their codes -----

  datatype ExecutionKind = V8Handler | NativeStaticText | NativeStaticJson | NativeStaticEmpty | NativeStaticProblem

  datatype Response = Response(kind: string, nativeBody: Option<string>)

  datatype Route = Route(verb: string, pattern: string, name: Option<string>, response: Option<Response>,
      hasEffects: bool)

  datatype ProjectKind = Web | OtherProject

  function KindOfRoute(route: Route): ExecutionKind {
    if route.hasEffects || route.response.None? || route.response.value.nativeBody.None? then V8Handler
    else
      var kind := route.response.value.kind;
      if kind == "text" then NativeStaticText
      else if kind == "json" then NativeStaticJson
      else if kind == "empty" then NativeStaticEmpty
      else if kind == "problem" then NativeStaticProblem
      else V8Handler
  }

  function KindText(kind: ExecutionKind): string {
    match kind
    case V8Handler => "v8-handler"
    case NativeStaticText => "native-static-text"
    case NativeStaticJson => "native-static-json"
    case NativeStaticEmpty => "native-static-empty"
    case NativeStaticProblem => "native-static-problem"
  }

  /** Served without the script engine: no effects, a body known beforehand, one of four kinds. */
  predicate ServedNatively(route: Route) {
    && !route.hasEffects && route.response.Some? && route.response.value.nativeBody.Some?
    && route.response.value.kind in ["text", "json", "empty", "problem"]
  }

  lemma KindOfRouteExactly(route: Route)
    ensures KindText(KindOfRoute(route))
         == if ServedNatively(route) then "native-static-" + route.response.value.kind else "v8-handler"
  {
  }

  function KindCode(kind: ExecutionKind): (code: nat)
    ensures 1 <= code <= 5
  {
    match kind
    case V8Handler => 1
    case NativeStaticText => 2
    case NativeStaticJson => 3
    case NativeStaticEmpty => 4
    case NativeStaticProblem => 5
  }

  function KindOfCode(code: nat): Option<ExecutionKind> {
    if code == 1 then Some(V8Handler)
    else if code == 2 then Some(NativeStaticText)
    else if code == 3 then Some(NativeStaticJson)
    else if code == 4 then Some(NativeStaticEmpty)
    else if code == 5 then Some(NativeStaticProblem)
    else None
  }

  function VerbCode(verb: string): Option<nat> {
    if verb == "GET" then Some(1)
    else if verb == "POST" then Some(2)
    else if verb == "PUT" then Some(3)
    else if verb == "DELETE" then Some(4)
    else if verb == "PATCH" then Some(5)
    else if verb == "OPTIONS" then Some(6)
    else if verb == "HEAD" then Some(7)
    else None
  }

  function VerbOfCode(code: nat): Option<string> {
    if code == 1 then Some("GET")
    else if code == 2 then Some("POST")
    else if code == 3 then Some("PUT")
    else if code == 4 then Some("DELETE")
    else if code == 5 then Some("PATCH")
    else if code == 6 then Some("OPTIONS")
    else if code == 7 then Some("HEAD")
    else None
  }

  lemma CodesRoundTrip(verb: string, kind: ExecutionKind)
    ensures VerbCode(verb).Some? ==> VerbOfCode(VerbCode(verb).value) == Some(verb)
    ensures KindOfCode(KindCode(kind)) == Some(kind)
  {
  }

  // ----- the emitter -----

  function NameOf(route: Route): string {
    if route.name.Some? then route.name.value else ""
  }

  /** The string table of the first routes: each pattern and its name, in turn. */
  function Strings(routes: seq<Route>): string {
    if routes == [] then ""
    else
      var last := routes[|routes| - 1];
      Strings(routes[..|routes| - 1]) + last.pattern + NameOf(last)
  }

  predicate Encodable(route: Route) {
    VerbCode(route.verb).Some? && ParamCount(route.pattern) < WORD
  }

  /** What the emitter can write: known methods and sizes that fit 32 bits. */
  predicate Emittable(routes: seq<Route>) {
    && HEADER_SIZE + 48 * |routes| < WORD
    && |Strings(routes)| < WORD
    && forall i :: 0 <= i < |routes| ==> Encodable(routes[i])
  }

  function Strategy(pattern: string): nat {
    if HasParams(pattern) then 2 else 1
  }

  predicate EntryFits(route: Route, i: nat, offset: nat) {
    Encodable(route) && i + 1 < WORD && offset + |route.pattern| < WORD && |NameOf(route)| < WORD
  }

  /** Entry `i`, when the string table already holds `offset` bytes. */
  function EntryWords(route: Route, i: nat, offset: nat): (ws: seq<nat>)
    requires EntryFits(route, i, offset)
    ensures Fit(ws) && |ws| == 12
  {
    [VerbCode(route.verb).value, i + 1, offset, |route.pattern|, offset + |route.pattern|, |NameOf(route)|,
     Strategy(route.pattern), KindCode(KindOfRoute(route)), ParamCount(route.pattern), 0, 0, 0]
  }

  lemma VerbCodeExactly(verb: string)
    requires VerbCode(verb).Some?
    ensures var code := VerbCode(verb).value;
            1 <= code <= 7 && ["GET", "POST", "PUT", "DELETE", "PATCH", "OPTIONS", "HEAD"][code - 1] == verb
  {
  }

  lemma KindCodeExactly(route: Route)
    ensures KindCode(KindOfRoute(route)) == if !ServedNatively(route) then 1 else NativeCode(route.response.value.kind)
  {
  }

  function NativeCode(kind: string): nat {
    match kind
    case "text" => 2
    case "json" => 3
    case "empty" => 4
    case _ => 5
  }

  /** The codes of an entry: method, handler, index, execution kind and number of parameters. */
  predicate Coded(ws: seq<nat>, route: Route, i: nat) {
    && |ws| == 12 && 1 <= ws[0] <= 7
    && ["GET", "POST", "PUT", "DELETE", "PATCH", "OPTIONS", "HEAD"][ws[0] - 1] == route.verb
    && ws[1] == i + 1 && ws[3] == |route.pattern| && ws[8] == ParamCount(route.pattern)
    && ws[6] == (if HasParams(route.pattern) then 2 else 1) && ws[9] == ws[10] == ws[11] == 0
    && ws[7] == if !ServedNatively(route) then 1 else NativeCode(route.response.value.kind)
  }

  lemma EntryIsCoded(route: Route, i: nat, offset: nat)
    requires EntryFits(route, i, offset)
    ensures Coded(EntryWords(route, i, offset), route, i)
  {
    VerbCodeExactly(route.verb);
    KindCodeExactly(route);
  }

  lemma {:induction false} StringsPrefix(routes: seq<Route>, i: nat)
    requires i < |routes|
    ensures |Strings(routes[..i + 1])| <= |Strings(routes)|
    ensures Strings(routes[..i + 1]) == Strings(routes[..i]) + routes[i].pattern + NameOf(routes[i])
    ensures Strings(routes)[..|Strings(routes[..i + 1])|] == Strings(routes[..i + 1])
  {
    assert routes[..i + 1][..i] == routes[..i];
    if i + 1 < |routes| {
      var init := routes[..|routes| - 1];
      StringsPrefix(init, i);
      assert init[..i + 1] == routes[..i + 1] && init[..i] == routes[..i];
    } else {
      assert routes[..i + 1] == routes;
    }
  }

  ghost predicate Writable(routes: seq<Route>, i: nat) {
    i < |routes| && EntryFits(routes[i], i, |Strings(routes[..i])|)
  }

  lemma EmittableIsWritable(routes: seq<Route>, i: nat)
    requires Emittable(routes) && i < |routes|
    ensures Writable(routes, i)
  {
    StringsPrefix(routes, i);
  }

  ghost function EntryOf(routes: seq<Route>, i: nat): (ws: seq<nat>)
    requires Writable(routes, i)
    ensures Fit(ws) && |ws| == 12
  {
    EntryWords(routes[i], i, |Strings(routes[..i])|)
  }

  function Concat(chunks: seq<string>): string {
    if chunks == [] then "" else Concat(chunks[..|chunks| - 1]) + chunks[|chunks| - 1]
  }

  lemma ConcatSnoc(chunks: seq<string>, chunk: string)
    ensures Concat(chunks + [chunk]) == Concat(chunks) + chunk
  {
    assert (chunks + [chunk])[..|chunks|] == chunks;
  }

  ghost predicate Even(chunks: seq<string>) {
    forall i :: 0 <= i < |chunks| ==> |chunks[i]| == ENTRY_SIZE
  }

  lemma {:induction false} ConcatLength(chunks: seq<string>)
    requires Even(chunks)
    ensures |Concat(chunks)| == 48 * |chunks|
  {
    if chunks != [] {
      ConcatLength(chunks[..|chunks| - 1]);
    }
  }

  lemma SliceOfSum(a: string, b: string, i: nat, j: nat)
    requires i <= j <= |a|
    ensures (a + b)[i..j] == a[i..j]
    ensures (a + b)[|a|..|a| + |b|] == b
  {
  }

  /** Entry `i` of a table of equal entries. */
  lemma {:induction false} ConcatSection(chunks: seq<string>, i: nat)
    requires Even(chunks) && i < |chunks|
    ensures |Concat(chunks)| == 48 * |chunks|
    ensures Concat(chunks)[48 * i..48 * i + 48] == chunks[i]
  {
    ConcatLength(chunks);
    var init, last := chunks[..|chunks| - 1], chunks[|chunks| - 1];
    ConcatLength(init);
    if i < |init| {
      ConcatSection(init, i);
      SliceOfSum(Concat(init), last, 48 * i, 48 * i + 48);
    } else {
      SliceOfSum(Concat(init), last, 0, 0);
    }
  }

  function EntryChunks(entries: seq<seq<nat>>): (r: seq<string>)
    ensures |r| == |entries|
    ensures forall i :: 0 <= i < |r| ==> r[i] == Words(entries[i])
  {
    seq(|entries|, i requires 0 <= i < |entries| => Words(entries[i]))
  }

  ghost function Entries(routes: seq<Route>): (r: seq<seq<nat>>)
    requires forall i :: 0 <= i < |routes| ==> Writable(routes, i)
    ensures |r| == |routes|
    ensures forall i :: 0 <= i < |r| ==> r[i] == EntryOf(routes, i)
  {
    seq(|routes|, i requires 0 <= i < |routes| => EntryOf(routes, i))
  }

  function FrontWords(n: nat, strings: nat): (ws: seq<nat>)
    requires HEADER_SIZE + 48 * n < WORD && strings < WORD
    ensures Fit(ws) && |ws| == 9
  {
    [1, ENDIAN_MARKER, HEADER_SIZE, n, n, HEADER_SIZE, 48 * n, HEADER_SIZE + 48 * n, strings]
  }

  function BackWords(n: nat, strings: nat): (ws: seq<nat>)
    requires HEADER_SIZE + 48 * n < WORD && strings < WORD
    ensures Fit(ws) && |ws| == 4
  {
    [0, 0, HEADER_SIZE + 48 * n, strings]
  }

  function Header(n: nat, strings: nat, checksum: nat): (r: string)
    requires HEADER_SIZE + 48 * n < WORD && strings < WORD
    ensures |r| == HEADER_SIZE
  {
    "SLRT" + Words(FrontWords(n, strings)) + Digits(checksum, SUM_BYTES) + Words(BackWords(n, strings))
  }

  ghost function Body(routes: seq<Route>): string
    requires Emittable(routes)
  {
    forall i | 0 <= i < |routes| ensures Writable(routes, i) { EmittableIsWritable(routes, i); }
    Concat(EntryChunks(Entries(routes))) + Strings(routes)
  }

  ghost function Layout(routes: seq<Route>, checksum: nat): (r: string)
    requires Emittable(routes)
    ensures |r| >= HEADER_SIZE
  {
    Header(|routes|, |Strings(routes)|, checksum) + Body(routes)
  }

  ghost function Sum(routes: seq<Route>): (r: nat)
    requires Emittable(routes)
    ensures r < TWO64
  {
    Fnv(Layout(routes, 0), |Layout(routes, 0)|)
  }

  ghost function Artifact(routes: seq<Route>): string
    requires Emittable(routes)
  {
    Layout(routes, Sum(routes))
  }

  function Patch(bytes: string, checksum: nat): string
    requires |bytes| >= HEADER_SIZE
  {
    bytes[..CHECKSUM_OFFSET] + Digits(checksum, SUM_BYTES) + bytes[CHECKSUM_OFFSET + 8..]
  }

  lemma PatchPieces(front: string, field: string, back: string, rest: string, checksum: nat)
    requires |front| == CHECKSUM_OFFSET && |field| == 8 && |back| == 16
    ensures Patch(front + field + back + rest, checksum) == front + Digits(checksum, SUM_BYTES) + back + rest
  {
    var all := front + field + back + rest;
    assert all[..CHECKSUM_OFFSET] == front && all[CHECKSUM_OFFSET + 8..] == back + rest;
  }

  /** Patching the checksum field gives the layout with that checksum. */
  lemma LayoutPatch(routes: seq<Route>, checksum: nat)
    requires Emittable(routes)
    ensures Layout(routes, checksum) == Patch(Layout(routes, 0), checksum)
  {
    var n, strings := |routes|, |Strings(routes)|;
    PatchPieces("SLRT" + Words(FrontWords(n, strings)), Digits(0, SUM_BYTES), Words(BackWords(n, strings)),
        Body(routes), checksum);
  }

  lemma StoredSumMatches(routes: seq<Route>)
    requires Emittable(routes)
    ensures Fnv(Artifact(routes), |Artifact(routes)|) == Sum(routes)
  {
    LayoutPatch(routes, Sum(routes));
    ChecksumIgnoresItsField(Artifact(routes), Layout(routes, 0), |Artifact(routes)|);
  }

  ghost predicate Gathered(routes: seq<Route>, k: nat, entries: seq<seq<nat>>, strings: string) {
    && k <= |routes| && |entries| == k && strings == Strings(routes[..k])
    && forall i :: 0 <= i < k ==> Writable(routes, i) && entries[i] == EntryOf(routes, i)
  }

  lemma GatherStep(routes: seq<Route>, k: nat, entries: seq<seq<nat>>, strings: string)
    requires Gathered(routes, k, entries, strings) && k < |routes| && EntryFits(routes[k], k, |strings|)
    ensures Gathered(routes, k + 1, entries + [EntryWords(routes[k], k, |strings|)],
            strings + routes[k].pattern + NameOf(routes[k]))
  {
    StringsPrefix(routes, k);
    assert Writable(routes, k);
  }

  /** The first loop of emit_route_artifact: entries and string table side by side. */
  method GatherEntries(routes: seq<Route>) returns (r: Option<(seq<seq<nat>>, string)>)
    ensures r.Some? ==> Gathered(routes, |routes|, r.value.0, r.value.1)
    ensures r.None? ==> !Emittable(routes)
  {
    var entries: seq<seq<nat>>, strings := [], "";
    for index := 0 to |routes|
      invariant Gathered(routes, index, entries, strings)
    {
      if !EntryFits(routes[index], index, |strings|) {
        if Emittable(routes) {
          EmittableIsWritable(routes, index);
        }
        return None;
      }
      GatherStep(routes, index, entries, strings);
      entries := entries + [EntryWords(routes[index], index, |strings|)];
      strings := strings + routes[index].pattern + NameOf(routes[index]);
    }
    r := Some((entries, strings));
  }

  /** The second loop: the entries, as bytes, after the header. */
  method AppendAll(header: string, chunks: seq<string>) returns (bytes: string)
    ensures bytes == header + Concat(chunks)
  {
    bytes := header;
    for k := 0 to |chunks|
      invariant bytes == header + Concat(chunks[..k])
    {
      ConcatSnoc(chunks[..k], chunks[k]);
      assert chunks[..k + 1] == chunks[..k] + [chunks[k]];
      Regroup(header, Concat(chunks[..k]), chunks[k]);
      bytes := bytes + chunks[k];
    }
    assert chunks[..|chunks|] == chunks;
  }

  lemma GatheredIsEmittable(routes: seq<Route>, entries: seq<seq<nat>>, strings: string)
    requires Gathered(routes, |routes|, entries, strings) && HEADER_SIZE + 48 * |routes| < WORD
    ensures Emittable(routes) <==> |strings| < WORD
  {
    assert routes[..|routes|] == routes;
    forall i | 0 <= i < |routes|
      ensures Encodable(routes[i])
    {
      assert Writable(routes, i);
    }
  }

  lemma GatheredIsLayout(routes: seq<Route>, entries: seq<seq<nat>>, strings: string)
    requires Gathered(routes, |routes|, entries, strings) && Emittable(routes)
    ensures |strings| == |Strings(routes)|
    ensures Header(|routes|, |strings|, 0) + Concat(EntryChunks(entries)) + strings == Layout(routes, 0)
  {
    assert routes[..|routes|] == routes;
    assert entries == Entries(routes);
    Regroup(Header(|routes|, |strings|, 0), Concat(EntryChunks(entries)), strings);
  }

  /** emit_route_artifact: nothing for other projects, an error exactly when something does not fit. */
  method Emit(kind: ProjectKind, routes: seq<Route>) returns (r: Result<Option<string>, ()>)
    ensures kind != Web ==> r == Ok(None)
    ensures kind == Web ==> r == if Emittable(routes) then Ok(Some(Artifact(routes))) else Err(())
  {
    if kind != Web {
      return Ok(None);
    }
    if HEADER_SIZE + |routes| * 48 >= WORD {
      return Err(());
    }
    var gathered := GatherEntries(routes);
    if gathered.None? {
      return Err(());
    }
    var (entries, strings) := gathered.value;
    GatheredIsEmittable(routes, entries, strings);
    if |strings| >= WORD {
      return Err(());
    }
    var bytes := AppendAll(Header(|routes|, |strings|, 0), EntryChunks(entries));
    bytes := bytes + strings;
    GatheredIsLayout(routes, entries, strings);
    var checksum := EmitterChecksum(bytes);
    LayoutPatch(routes, checksum);
    r := Ok(Some(Patch(bytes, checksum)));
  }
}
