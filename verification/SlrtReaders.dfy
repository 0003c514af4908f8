/**
 The two readers of `routes.slrt` (compiler/src/compiler_contract.rs, parse_route_artifact;
 src/core/route_artifact.c, sl_route_artifact_validate), against the emitter and each other.
*/
module SlrtReaders {
  import opened Prelude
  import opened Slrt

  // ----- what the readers look at -----

  /** The header words from byte 4 up to the checksum. */
  datatype Head = Head(version: nat, marker: nat, headerSize: nat, routes: nat, endpoints: nat,
                       table: nat, tableSize: nat, strings: nat, stringsSize: nat)

  function HeadOf(ws: seq<nat>): Head
    requires |ws| == 9
  {
    Head(ws[0], ws[1], ws[2], ws[3], ws[4], ws[5], ws[6], ws[7], ws[8])
  }

  function HeadAt(bytes: string): Head
    requires |bytes| >= HEADER_SIZE
  {
    HeadOf(Numbers(bytes[4..CHECKSUM_OFFSET]))
  }

  function SumAt(bytes: string): nat
    requires |bytes| >= HEADER_SIZE
  {
    Number(bytes[CHECKSUM_OFFSET..CHECKSUM_OFFSET + 8])
  }

  datatype Entry = Entry(verb: nat, handlerId: nat, pattern: nat, patternSize: nat, name: nat, nameSize: nat, kind: nat)

  function EntryOfWords(ws: seq<nat>): Entry
    requires |ws| == 12
  {
    Entry(ws[0], ws[1], ws[2], ws[3], ws[4], ws[5], ws[7])
  }

  function EntryAt(bytes: string, at: nat): Entry
    requires at + ENTRY_SIZE <= |bytes|
  {
    EntryOfWords(Numbers(bytes[at..at + ENTRY_SIZE]))
  }

  /** What both readers demand of the header of a file of `size` bytes. */
  predicate Framed(h: Head, size: nat) {
    && h.version == 1
    && h.tableSize == h.routes * 48
    && h.table + h.tableSize <= size
    && h.strings + h.stringsSize <= size
  }

  predicate Opens(bytes: string) {
    |bytes| >= HEADER_SIZE && bytes[0..4] == "SLRT" && Framed(HeadAt(bytes), |bytes|)
  }

  function EntryOffset(h: Head, i: nat): nat {
    h.table + i * 48
  }

  predicate InStrings(h: Head, offset: nat, size: nat) {
    offset <= h.stringsSize && size <= h.stringsSize - offset
  }

  function Text(bytes: string, h: Head, offset: nat, size: nat): string
    requires Framed(h, |bytes|) && InStrings(h, offset, size)
  {
    bytes[h.strings + offset..h.strings + offset + size]
  }

  // ----- the contract checker's parser -----

  datatype ArtifactRoute = ArtifactRoute(verb: string, handlerId: nat, pattern: string, kind: ExecutionKind)

  /** One entry; `utf8` is the validity test of the text decoder. */
  function Decode(bytes: string, h: Head, e: Entry, utf8: string -> bool): Option<ArtifactRoute>
    requires Framed(h, |bytes|)
  {
    if !InStrings(h, e.pattern, e.patternSize) then None
    else
      var pattern := Text(bytes, h, e.pattern, e.patternSize);
      var verb, kind := VerbOfCode(e.verb), KindOfCode(e.kind);
      if !utf8(pattern) || verb.None? || kind.None? then None
      else Some(ArtifactRoute(verb.value, e.handlerId, pattern, kind.value))
  }

  function DecodeAt(bytes: string, i: nat, utf8: string -> bool): Option<ArtifactRoute>
    requires Opens(bytes) && i < HeadAt(bytes).routes
  {
    Decode(bytes, HeadAt(bytes), EntryAt(bytes, EntryOffset(HeadAt(bytes), i)), utf8)
  }

  ghost predicate ReadsAs(bytes: string, utf8: string -> bool, routes: seq<ArtifactRoute>) {
    && Opens(bytes) && |routes| == HeadAt(bytes).routes
    && forall i :: 0 <= i < |routes| ==> DecodeAt(bytes, i, utf8) == Some(routes[i])
  }

  ghost predicate Unreadable(bytes: string, utf8: string -> bool) {
    !Opens(bytes) || exists i :: 0 <= i < HeadAt(bytes).routes && DecodeAt(bytes, i, utf8).None?
  }

  /** parse_route_artifact: all entries or none; no read ever leaves the file. */
  method ParseArtifact(bytes: string, utf8: string -> bool) returns (r: Option<seq<ArtifactRoute>>)
    ensures r.Some? ==> ReadsAs(bytes, utf8, r.value)
    ensures r.None? <==> Unreadable(bytes, utf8)
  {
    if |bytes| < HEADER_SIZE || bytes[0..4] != "SLRT" {
      return None;
    }
    var h := HeadAt(bytes);
    if h.version != 1 || h.tableSize != h.routes * 48 {
      return None;
    }
    if |bytes| < h.table + h.tableSize || |bytes| < h.strings + h.stringsSize {
      return None;
    }
    var entries := [];
    for index := 0 to h.routes
      invariant |entries| == index
      invariant forall i :: 0 <= i < index ==> DecodeAt(bytes, i, utf8) == Some(entries[i])
    {
      var e := EntryAt(bytes, EntryOffset(h, index));
      var route := ParseEntry(bytes, h, e, utf8);
      if route.None? {
        assert DecodeAt(bytes, index, utf8).None?;
        return None;
      }
      entries := entries + [route.value];
    }
    r := Some(entries);
  }

  method ParseEntry(bytes: string, h: Head, e: Entry, utf8: string -> bool) returns (r: Option<ArtifactRoute>)
    requires Framed(h, |bytes|)
    ensures r == Decode(bytes, h, e, utf8)
  {
    var start := h.strings + e.pattern;
    var end := start + e.patternSize;
    if e.pattern > h.stringsSize || e.patternSize > h.stringsSize - e.pattern || end > |bytes| {
      return None;
    }
    var pattern := bytes[start..end];
    if !utf8(pattern) {
      return None;
    }
    var verb := VerbOfCode(e.verb);
    if verb.None? {
      return None;
    }
    var kind := KindOfCode(e.kind);
    if kind.None? {
      return None;
    }
    r := Some(ArtifactRoute(verb.value, e.handlerId, pattern, kind.value));
  }

  // ----- the runtime's validator -----

  datatype PlanRoute = PlanRoute(verb: string, handlerId: nat, pattern: string, name: string)

  /** slrt_method_code: an unknown method is code zero. */
  function RuntimeVerbCode(verb: string): nat {
    if VerbCode(verb).Some? then VerbCode(verb).value else 0
  }

  predicate HeadAccepted(h: Head, size: nat, count: nat) {
    && Framed(h, size)
    && h.marker == ENDIAN_MARKER && h.headerSize == HEADER_SIZE
    && h.routes == count && h.endpoints == count
    && h.table + h.tableSize <= h.strings
  }

  /** The text of the string table at `offset` is `expected`. */
  predicate Holds(bytes: string, h: Head, offset: nat, size: nat, expected: string)
    requires Framed(h, |bytes|)
  {
    InStrings(h, offset, size) && Text(bytes, h, offset, size) == expected
  }

  /** The entry says what the Plan's route says. */
  predicate EntryAccepted(bytes: string, h: Head, e: Entry, route: PlanRoute)
    requires Framed(h, |bytes|)
  {
    && e.verb == RuntimeVerbCode(route.verb) && e.handlerId == route.handlerId
    && 1 <= e.kind <= 5
    && Holds(bytes, h, e.pattern, e.patternSize, route.pattern)
    && Holds(bytes, h, e.name, e.nameSize, route.name)
  }

  predicate AcceptedAt(bytes: string, i: nat, route: PlanRoute)
    requires Opens(bytes) && i < HeadAt(bytes).routes
  {
    EntryAccepted(bytes, HeadAt(bytes), EntryAt(bytes, EntryOffset(HeadAt(bytes), i)), route)
  }

  ghost predicate Accepted(bytes: string, expectedHash: string, sha: string -> string, plan: seq<PlanRoute>) {
    && Opens(bytes) && HeadAccepted(HeadAt(bytes), |bytes|, |plan|)
    && SumAt(bytes) == Fnv(bytes, |bytes|)
    && (expectedHash == "" || expectedHash == sha(bytes))
    && forall i :: 0 <= i < |plan| ==> AcceptedAt(bytes, i, plan[i])
  }

  predicate RangeValid(length: nat, offset: nat, size: nat) {
    offset <= length && size <= length - offset
  }

  method ValidateText(bytes: string, h: Head, offset: nat, size: nat, expected: string) returns (ok: bool)
    requires Framed(h, |bytes|)
    ensures ok == Holds(bytes, h, offset, size, expected)
  {
    var start := h.strings + offset;
    if !RangeValid(|bytes|, start, size) || offset > h.stringsSize || size > h.stringsSize - offset {
      return false;
    }
    ok := bytes[start..start + size] == expected;
  }

  /** slrt_validate_entry */
  method ValidateEntry(bytes: string, h: Head, e: Entry, route: PlanRoute) returns (ok: bool)
    requires Framed(h, |bytes|)
    ensures ok == EntryAccepted(bytes, h, e, route)
  {
    if e.verb != RuntimeVerbCode(route.verb) || e.handlerId != route.handlerId {
      return false;
    }
    if e.kind < 1 || e.kind > 5 {
      return false;
    }
    ok := ValidateText(bytes, h, e.pattern, e.patternSize, route.pattern);
    if ok {
      ok := ValidateText(bytes, h, e.name, e.nameSize, route.name);
    }
  }

  method ValidateEntries(bytes: string, plan: seq<PlanRoute>) returns (ok: bool)
    requires Opens(bytes) && HeadAt(bytes).routes == |plan|
    ensures ok <==> forall i :: 0 <= i < |plan| ==> AcceptedAt(bytes, i, plan[i])
  {
    var h := HeadAt(bytes);
    for index := 0 to |plan|
      invariant forall i :: 0 <= i < index ==> AcceptedAt(bytes, i, plan[i])
    {
      ok := ValidateEntry(bytes, h, EntryAt(bytes, EntryOffset(h, index)), plan[index]);
      if !ok {
        assert !AcceptedAt(bytes, index, plan[index]);
        return;
      }
    }
    ok := true;
  }

  /** The header checks of sl_route_artifact_validate, in its order. */
  method ValidateHead(h: Head, size: nat, count: nat) returns (ok: bool)
    ensures ok == HeadAccepted(h, size, count)
  {
    if h.version != 1 || h.marker != ENDIAN_MARKER || h.headerSize != HEADER_SIZE {
      return false;
    }
    if h.routes != count || h.endpoints != count || h.tableSize != h.routes * 48 {
      return false;
    }
    if !RangeValid(size, h.table, h.tableSize) || !RangeValid(size, h.strings, h.stringsSize) {
      return false;
    }
    ok := h.table + h.tableSize <= h.strings;
  }

  /** sl_route_artifact_validate; `sha` is the hash the Plan may carry. */
  method Validate(bytes: string, expectedHash: string, sha: string -> string, plan: seq<PlanRoute>) returns (ok: bool)
    ensures ok == Accepted(bytes, expectedHash, sha, plan)
  {
    if |bytes| < HEADER_SIZE || bytes[0..4] != "SLRT" {
      return false;
    }
    ok := ValidateHead(HeadAt(bytes), |bytes|, |plan|);
    if !ok {
      return;
    }
    var checksum := RuntimeChecksum(bytes);
    if checksum != SumAt(bytes) {
      return false;
    }
    if expectedHash != "" && expectedHash != sha(bytes) {
      return false;
    }
    ok := ValidateEntries(bytes, plan);
  }

  // ----- what the emitter wrote, section by section -----

  lemma Pieces(a: string, b: string, c: string, d: string, e: string, f: string)
    requires |a| == 4 && |b| == 36 && |c| == 8 && |d| == 16
    ensures var all := (a + b + c + d) + (e + f);
            && |all| == 64 + |e| + |f| && all[0..4] == a && all[4..40] == b && all[40..48] == c
            && all[64..64 + |e|] == e && all[64 + |e|..64 + |e| + |f|] == f
  {
  }

  ghost function Chunks(routes: seq<Route>): (r: seq<string>)
    requires Emittable(routes)
    ensures |r| == |routes| && Even(r)
    ensures forall i :: 0 <= i < |r| ==> Writable(routes, i) && r[i] == Words(EntryOf(routes, i))
  {
    forall i | 0 <= i < |routes| ensures Writable(routes, i) { EmittableIsWritable(routes, i); }
    EntryChunks(Entries(routes))
  }

  ghost predicate Divided(bytes: string, front: string, sum: string, chunks: seq<string>, strings: string) {
    var table := HEADER_SIZE + 48 * |chunks|;
    && |bytes| == table + |strings|
    && bytes[0..4] == "SLRT" && bytes[4..40] == front && bytes[40..48] == sum
    && bytes[HEADER_SIZE..table] == Concat(chunks) && bytes[table..table + |strings|] == strings
  }

  lemma HeaderIsDivided(n: nat, sum: nat, chunks: seq<string>, strings: string)
    requires HEADER_SIZE + 48 * n < WORD && |strings| < WORD && Even(chunks)
    ensures Divided(Header(n, |strings|, sum) + (Concat(chunks) + strings), Words(FrontWords(n, |strings|)),
            Digits(sum, SUM_BYTES), chunks, strings)
  {
    ConcatLength(chunks);
    Pieces("SLRT", Words(FrontWords(n, |strings|)), Digits(sum, SUM_BYTES), Words(BackWords(n, |strings|)),
        Concat(chunks), strings);
  }

  /** A file laid out as the emitter lays these routes out. */
  ghost predicate Emitted(bytes: string, routes: seq<Route>) {
    && Emittable(routes)
    && Divided(bytes, Words(FrontWords(|routes|, |Strings(routes)|)), Digits(Sum(routes), SUM_BYTES), Chunks(routes),
        Strings(routes))
  }

  lemma ArtifactIsEmitted(routes: seq<Route>)
    requires Emittable(routes)
    ensures Emitted(Artifact(routes), routes)
  {
    HeaderIsDivided(|routes|, Sum(routes), Chunks(routes), Strings(routes));
  }

  lemma EntryPiece(bytes: string, front: string, sum: string, chunks: seq<string>, strings: string, i: nat)
    requires Divided(bytes, front, sum, chunks, strings) && Even(chunks) && i < |chunks|
    ensures var at := HEADER_SIZE + i * 48; bytes[at..at + ENTRY_SIZE] == chunks[i]
  {
    ConcatSection(chunks, i);
    SliceOfSlice(bytes, HEADER_SIZE, Concat(chunks), 48 * i, ENTRY_SIZE);
  }

  ghost function EmittedHead(routes: seq<Route>): Head
    requires Emittable(routes)
  {
    HeadOf(FrontWords(|routes|, |Strings(routes)|))
  }

  lemma EmittedHeadReads(bytes: string, routes: seq<Route>)
    requires Emitted(bytes, routes)
    ensures HeadAt(bytes) == EmittedHead(routes) && SumAt(bytes) == Sum(routes)
    ensures Opens(bytes) && HeadAccepted(HeadAt(bytes), |bytes|, |routes|) && HeadAt(bytes).table == HEADER_SIZE
  {
    NumbersOfWords(FrontWords(|routes|, |Strings(routes)|));
    NumberOfSum(Sum(routes));
  }

  /** Entry `i` of the table after the header is that of route `i`. */
  ghost predicate EntryStands(bytes: string, routes: seq<Route>, i: nat) {
    && HEADER_SIZE + i * 48 + ENTRY_SIZE <= |bytes| && Writable(routes, i)
    && EntryAt(bytes, HEADER_SIZE + i * 48) == EntryOfWords(EntryOf(routes, i))
  }

  lemma EmittedEntryReads(bytes: string, routes: seq<Route>, i: nat)
    requires Emitted(bytes, routes) && i < |routes|
    ensures EntryStands(bytes, routes, i)
  {
    EntryPiece(bytes, Words(FrontWords(|routes|, |Strings(routes)|)), Digits(Sum(routes), SUM_BYTES), Chunks(routes),
        Strings(routes), i);
    assert Chunks(routes)[i] == Words(EntryOf(routes, i));
    NumbersOfWords(EntryOf(routes, i));
  }

  lemma CutTwo(all: string, a: string, b: string, c: string)
    requires |a + b + c| <= |all| && all[..|a + b + c|] == a + b + c
    ensures all[|a|..|a| + |b|] == b && all[|a| + |b|..|a| + |b| + |c|] == c
  {
    var front := all[..|a + b + c|];
    assert all[|a|..|a| + |b|] == front[|a|..|a| + |b|];
    assert all[|a| + |b|..|a| + |b| + |c|] == front[|a| + |b|..|a| + |b| + |c|];
  }

  /** A pattern and a name that follow each other in the string table are both found there. */
  lemma TextsHold(bytes: string, h: Head, strings: string, before: string, pattern: string, name: string)
    requires Framed(h, |bytes|) && |strings| == h.stringsSize && bytes[h.strings..h.strings + |strings|] == strings
    requires |before + pattern + name| <= |strings| && strings[..|before + pattern + name|] == before + pattern + name
    ensures Holds(bytes, h, |before|, |pattern|, pattern)
    ensures Holds(bytes, h, |before| + |pattern|, |name|, name)
  {
    CutTwo(strings, before, pattern, name);
    SliceOfSlice(bytes, h.strings, strings, |before|, |pattern|);
    SliceOfSlice(bytes, h.strings, strings, |before| + |pattern|, |name|);
  }

  /** The two strings of route `i`, as the readers cut them out. */
  lemma RouteTexts(bytes: string, h: Head, routes: seq<Route>, i: nat)
    requires Framed(h, |bytes|) && |Strings(routes)| == h.stringsSize
             && bytes[h.strings..h.strings + h.stringsSize] == Strings(routes)
    requires i < |routes|
    ensures Holds(bytes, h, |Strings(routes[..i])|, |routes[i].pattern|, routes[i].pattern)
    ensures Holds(bytes, h, |Strings(routes[..i])| + |routes[i].pattern|, |NameOf(routes[i])|, NameOf(routes[i]))
  {
    StringsPrefix(routes, i);
    TextsHold(bytes, h, Strings(routes), Strings(routes[..i]), routes[i].pattern, NameOf(routes[i]));
  }

  lemma DividedStrings(bytes: string, front: string, sum: string, chunks: seq<string>, strings: string, h: Head)
    requires Divided(bytes, front, sum, chunks, strings) && h.strings == HEADER_SIZE + 48 * |chunks|
             && h.stringsSize == |strings|
    ensures h.strings + h.stringsSize <= |bytes| && bytes[h.strings..h.strings + h.stringsSize] == strings
  {
  }

  lemma EmittedHeadStrings(bytes: string, routes: seq<Route>)
    requires Emitted(bytes, routes)
    ensures |bytes| >= HEADER_SIZE && HeadAt(bytes).strings == HEADER_SIZE + 48 * |routes|
    ensures HeadAt(bytes).stringsSize == |Strings(routes)|
  {
    EmittedHeadReads(bytes, routes);
  }

  lemma StringsStandAt(bytes: string, h: Head, routes: seq<Route>)
    requires Emitted(bytes, routes) && h.strings == HEADER_SIZE + 48 * |routes| && h.stringsSize == |Strings(routes)|
    ensures StringsStand(bytes, h, routes)
  {
    DividedStrings(bytes, Words(FrontWords(|routes|, |Strings(routes)|)), Digits(Sum(routes), SUM_BYTES),
        Chunks(routes), Strings(routes), h);
  }

  lemma EmittedStringsRead(bytes: string, routes: seq<Route>)
    requires Emitted(bytes, routes)
    ensures |bytes| >= HEADER_SIZE && StringsStand(bytes, HeadAt(bytes), routes)
  {
    EmittedHeadStrings(bytes, routes);
    StringsStandAt(bytes, HeadAt(bytes), routes);
  }

  ghost predicate StringsStand(bytes: string, h: Head, routes: seq<Route>) {
    && h.strings + h.stringsSize <= |bytes| && h.stringsSize == |Strings(routes)|
    && bytes[h.strings..h.strings + h.stringsSize] == Strings(routes)
  }

  // ----- round trips -----

  function PlanOf(routes: seq<Route>): (r: seq<PlanRoute>)
    ensures |r| == |routes|
  {
    seq(|routes|, i requires 0 <= i < |routes| =>
      PlanRoute(routes[i].verb, i + 1, routes[i].pattern, NameOf(routes[i])))
  }

  /** What both readers make of one written entry. */
  lemma WrittenEntry(bytes: string, h: Head, route: Route, i: nat, offset: nat, utf8: string -> bool)
    requires Framed(h, |bytes|) && EntryFits(route, i, offset)
    requires Holds(bytes, h, offset, |route.pattern|, route.pattern)
    requires Holds(bytes, h, offset + |route.pattern|, |NameOf(route)|, NameOf(route))
    ensures var e := EntryOfWords(EntryWords(route, i, offset));
            && EntryAccepted(bytes, h, e, PlanRoute(route.verb, i + 1, route.pattern, NameOf(route)))
            && (utf8(route.pattern) ==>
                Decode(bytes, h, e, utf8) == Some(ArtifactRoute(route.verb, i + 1, route.pattern, KindOfRoute(route))))
  {
    CodesRoundTrip(route.verb, KindOfRoute(route));
  }

  /** A file with the header, entries and strings of these routes. */
  ghost predicate Written(bytes: string, routes: seq<Route>) {
    && Opens(bytes) && Carries(bytes, HeadAt(bytes), routes)
  }

  ghost predicate Carries(bytes: string, h: Head, routes: seq<Route>)
    requires Framed(h, |bytes|)
  {
    && HeadAccepted(h, |bytes|, |routes|)
    && |Strings(routes)| == h.stringsSize && bytes[h.strings..h.strings + h.stringsSize] == Strings(routes)
    && forall i :: 0 <= i < |routes| ==>
         Writable(routes, i) && EntryAt(bytes, EntryOffset(h, i)) == EntryOfWords(EntryOf(routes, i))
  }

  lemma RouteIn(bytes: string, h: Head, routes: seq<Route>, i: nat, utf8: string -> bool)
    requires Framed(h, |bytes|) && i < |routes| && Writable(routes, i)
    requires |Strings(routes)| == h.stringsSize && bytes[h.strings..h.strings + h.stringsSize] == Strings(routes)
    ensures EntryAccepted(bytes, h, EntryOfWords(EntryOf(routes, i)), PlanOf(routes)[i])
    ensures utf8(routes[i].pattern) ==>
            Decode(bytes, h, EntryOfWords(EntryOf(routes, i)), utf8) == Some(ArtifactRoutes(routes)[i])
  {
    RouteTexts(bytes, h, routes, i);
    WrittenEntry(bytes, h, routes[i], i, |Strings(routes[..i])|, utf8);
  }

  /** Entry `i` in both readers' terms. */
  lemma RouteAt(bytes: string, routes: seq<Route>, i: nat, utf8: string -> bool)
    requires Written(bytes, routes) && i < |routes|
    ensures AcceptedAt(bytes, i, PlanOf(routes)[i])
    ensures utf8(routes[i].pattern) ==> DecodeAt(bytes, i, utf8) == Some(ArtifactRoutes(routes)[i])
  {
    assert Writable(routes, i);
    RouteIn(bytes, HeadAt(bytes), routes, i, utf8);
  }

  lemma Assembled(bytes: string, routes: seq<Route>)
    requires Opens(bytes) && HeadAccepted(HeadAt(bytes), |bytes|, |routes|) && HeadAt(bytes).table == HEADER_SIZE
    requires StringsStand(bytes, HeadAt(bytes), routes)
    requires forall i: nat :: i < |routes| ==> EntryStands(bytes, routes, i)
    ensures Written(bytes, routes)
  {
    forall i: nat | i < |routes|
      ensures Writable(routes, i) && EntryAt(bytes, EntryOffset(HeadAt(bytes), i)) == EntryOfWords(EntryOf(routes, i))
    {
      assert EntryStands(bytes, routes, i);
    }
  }

  lemma EmittedEntriesRead(bytes: string, routes: seq<Route>)
    requires Emitted(bytes, routes)
    ensures forall i: nat :: i < |routes| ==> EntryStands(bytes, routes, i)
  {
    forall i: nat | i < |routes|
      ensures EntryStands(bytes, routes, i)
    {
      EmittedEntryReads(bytes, routes, i);
    }
  }

  lemma EmittedIsWritten(bytes: string, routes: seq<Route>)
    requires Emitted(bytes, routes)
    ensures Written(bytes, routes)
  {
    EmittedHeadReads(bytes, routes);
    EmittedStringsRead(bytes, routes);
    EmittedEntriesRead(bytes, routes);
    Assembled(bytes, routes);
  }

  function ArtifactRoutes(routes: seq<Route>): (r: seq<ArtifactRoute>)
    ensures |r| == |routes|
  {
    seq(|routes|, i requires 0 <= i < |routes| =>
      ArtifactRoute(routes[i].verb, i + 1, routes[i].pattern, KindOfRoute(routes[i])))
  }

  /** The runtime accepts what the compiler emits, for the Plan emitted beside it. */
  lemma EmittedIsAccepted(routes: seq<Route>, expectedHash: string, sha: string -> string)
    requires Emittable(routes) && (expectedHash == "" || expectedHash == sha(Artifact(routes)))
    ensures Accepted(Artifact(routes), expectedHash, sha, PlanOf(routes))
  {
    ArtifactIsEmitted(routes);
    EmittedHeadReads(Artifact(routes), routes);
    StoredSumMatches(routes);
    EmittedIsWritten(Artifact(routes), routes);
    forall i | 0 <= i < |routes|
      ensures AcceptedAt(Artifact(routes), i, PlanOf(routes)[i])
    {
      RouteAt(Artifact(routes), routes, i, _ => false);
    }
  }

  /** Parsing undoes emitting: every route in order, with its position and execution kind. */
  lemma EmittedIsParsed(routes: seq<Route>, utf8: string -> bool)
    requires Emittable(routes) && forall i :: 0 <= i < |routes| ==> utf8(routes[i].pattern)
    ensures ReadsAs(Artifact(routes), utf8, ArtifactRoutes(routes))
  {
    ArtifactIsEmitted(routes);
    EmittedIsWritten(Artifact(routes), routes);
    forall i | 0 <= i < |routes|
      ensures DecodeAt(Artifact(routes), i, utf8) == Some(ArtifactRoutes(routes)[i])
    {
      RouteAt(Artifact(routes), routes, i, utf8);
    }
  }

  /**
   What the contract checker reads of an emitted route: its method, its place, its pattern, and
   the kind of its response if it is served natively.
  */
  lemma EmittedRouteReads(routes: seq<Route>, utf8: string -> bool, read: seq<ArtifactRoute>, i: nat)
    requires Emittable(routes) && forall i :: 0 <= i < |routes| ==> utf8(routes[i].pattern)
    requires ReadsAs(Artifact(routes), utf8, read) && i < |routes|
    ensures |read| == |routes|
    ensures read[i].verb == routes[i].verb && read[i].handlerId == i + 1 && read[i].pattern == routes[i].pattern
    ensures KindText(read[i].kind)
         == if ServedNatively(routes[i]) then "native-static-" + routes[i].response.value.kind else "v8-handler"
  {
    EmittedIsParsed(routes, utf8);
    assert DecodeAt(Artifact(routes), i, utf8) == Some(ArtifactRoutes(routes)[i]);
    KindOfRouteExactly(routes[i]);
  }

  /** The header: version 1, the byte-order mark, the sizes, and the places of the two tables. */
  lemma EmittedHeader(routes: seq<Route>)
    requires Emittable(routes)
    ensures |Artifact(routes)| == 64 + 48 * |routes| + |Strings(routes)| && Artifact(routes)[0..4] == "SLRT"
    ensures HeadAt(Artifact(routes)) == Head(1, 0x0102_0304, 64, |routes|, |routes|, 64, 48 * |routes|,
                                             64 + 48 * |routes|, |Strings(routes)|)
  {
    ArtifactIsEmitted(routes);
    EmittedHeadReads(Artifact(routes), routes);
  }

  /** The words of entry `i` in the file. */
  function WordsAt(bytes: string, i: nat): (ws: seq<nat>)
    requires HEADER_SIZE + i * 48 + ENTRY_SIZE <= |bytes|
    ensures |ws| == 12
  {
    Numbers(bytes[HEADER_SIZE + i * 48..HEADER_SIZE + i * 48 + ENTRY_SIZE])
  }

  lemma EmittedWords(routes: seq<Route>, i: nat)
    requires Emittable(routes) && i < |routes|
    ensures HEADER_SIZE + i * 48 + ENTRY_SIZE <= |Artifact(routes)| && Writable(routes, i)
    ensures WordsAt(Artifact(routes), i) == EntryOf(routes, i)
  {
    ArtifactIsEmitted(routes);
    EmittedEntryReads(Artifact(routes), routes, i);
    EntryPiece(Artifact(routes), Words(FrontWords(|routes|, |Strings(routes)|)), Digits(Sum(routes), SUM_BYTES),
               Chunks(routes), Strings(routes), i);
    assert Chunks(routes)[i] == Words(EntryOf(routes, i));
    NumbersOfWords(EntryOf(routes, i));
  }

  /** The codes at the place of entry `i`. */
  lemma EmittedCodes(routes: seq<Route>, i: nat)
    requires Emittable(routes) && i < |routes|
    ensures HEADER_SIZE + i * 48 + ENTRY_SIZE <= |Artifact(routes)|
    ensures Coded(WordsAt(Artifact(routes), i), routes[i], i)
  {
    EmittedWords(routes, i);
    EntryIsCoded(routes[i], i, |Strings(routes[..i])|);
  }

  // ----- the two readers agree on every file -----

  predicate SameRoute(route: ArtifactRoute, planned: PlanRoute) {
    route.verb == planned.verb && route.handlerId == planned.handlerId && route.pattern == planned.pattern
  }

  predicate Nameable(route: PlanRoute, utf8: string -> bool) {
    VerbCode(route.verb).Some? && utf8(route.pattern)
  }

  lemma AcceptedEntryIsDecoded(bytes: string, h: Head, e: Entry, route: PlanRoute, utf8: string -> bool)
    requires Framed(h, |bytes|) && EntryAccepted(bytes, h, e, route)
    ensures Decode(bytes, h, e, utf8).Some? <==> Nameable(route, utf8)
    ensures Decode(bytes, h, e, utf8).Some? ==> SameRoute(Decode(bytes, h, e, utf8).value, route)
  {
    CodesRoundTrip(route.verb, V8Handler);
  }

  /**
   Whatever file the runtime accepts for a Plan, the contract checker reads as that Plan's
   routes; it fails to only for an unknown method or a pattern that is not text.
  */
  lemma AcceptedIsParsed(bytes: string, hash: string, sha: string -> string, plan: seq<PlanRoute>, utf8: string -> bool)
    requires Accepted(bytes, hash, sha, plan)
    ensures Unreadable(bytes, utf8) <==> exists i :: 0 <= i < |plan| && !Nameable(plan[i], utf8)
    ensures forall routes :: ReadsAs(bytes, utf8, routes) ==> |routes| == |plan| && forall i :: 0 <= i < |plan| ==>
            SameRoute(routes[i], plan[i])
  {
    forall i | 0 <= i < |plan|
      ensures DecodeAt(bytes, i, utf8).Some? <==> Nameable(plan[i], utf8)
      ensures DecodeAt(bytes, i, utf8).Some? ==> SameRoute(DecodeAt(bytes, i, utf8).value, plan[i])
    {
      assert AcceptedAt(bytes, i, plan[i]);
      AcceptedEntryIsDecoded(bytes, HeadAt(bytes), EntryAt(bytes, EntryOffset(HeadAt(bytes), i)), plan[i], utf8);
    }
    if i :| 0 <= i < |plan| && !Nameable(plan[i], utf8) {
      assert DecodeAt(bytes, i, utf8).None?;
    }
  }

  /** What the runtime has made sure of when it accepts a file. */
  lemma AcceptedMeans(bytes: string, hash: string, sha: string -> string, plan: seq<PlanRoute>)
    requires Accepted(bytes, hash, sha, plan)
    ensures |bytes| >= 64 && bytes[0..4] == "SLRT" && (hash != "" ==> hash == sha(bytes))
    ensures Number(bytes[40..48]) == Fnv(bytes, |bytes|)
    ensures var h := HeadAt(bytes);
            && h.version == 1 && h.marker == 0x0102_0304 && h.headerSize == 64
            && h.routes == |plan| && h.endpoints == |plan| && h.tableSize == 48 * |plan|
            && h.table + h.tableSize <= h.strings && h.strings + h.stringsSize <= |bytes|
  {
  }

  lemma SamePlanRoute(bytes: string, h: Head, e: Entry, a: PlanRoute, b: PlanRoute)
    requires Framed(h, |bytes|) && EntryAccepted(bytes, h, e, a) && EntryAccepted(bytes, h, e, b)
    requires VerbCode(a.verb).Some? && VerbCode(b.verb).Some?
    ensures a == b
  {
    CodesRoundTrip(a.verb, V8Handler);
    CodesRoundTrip(b.verb, V8Handler);
  }

  /** One file is accepted for one Plan: methods, handlers, patterns and names are all pinned. */
  lemma AcceptedPlanIsUnique(bytes: string, hash: string, sha: string -> string, a: seq<PlanRoute>, b: seq<PlanRoute>)
    requires Accepted(bytes, hash, sha, a) && Accepted(bytes, hash, sha, b)
    requires forall i :: 0 <= i < |a| ==> VerbCode(a[i].verb).Some?
    requires forall i :: 0 <= i < |b| ==> VerbCode(b[i].verb).Some?
    ensures a == b
  {
    forall i | 0 <= i < |a|
      ensures a[i] == b[i]
    {
      assert AcceptedAt(bytes, i, a[i]) && AcceptedAt(bytes, i, b[i]);
      SamePlanRoute(bytes, HeadAt(bytes), EntryAt(bytes, EntryOffset(HeadAt(bytes), i)), a[i], b[i]);
    }
  }
}
