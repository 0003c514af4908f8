# Sloppy: where two pieces of code must agree

Sloppy is a TypeScript web framework with a compiler written in Rust (`compiler/src`) and a runtime written
in C (`src/core`). The compiler rewrites handler sources, emits a Plan in JSON and a binary route table, and
the runtime parses the same patterns again, builds its own indexes and serves requests from them. This project
models the parts where separately written pieces of code have to agree on every input, and proves that they do,
or exactly when they do.

Text is a sequence of bytes, each written as a character. Integers are unbounded; every 32-bit or 64-bit limit
the code depends on is written out. Callbacks, hashes, text validity, the file system and everything else
outside the modelled code are parameters, so the results hold for all of their behaviours.

## What is modelled

| module | what it models |
|---|---|
| `SpanEdits`, `SyntaxTrees`, `TypeErasure` | the removal of type syntax from handlers: the walk that collects spans and the in-place edit |
| `RoutePatterns`, `RouteParser` | the pattern algebra of the compiler, and the runtime's parser of the same patterns |
| `RouteMatching`, `RouteConstraints`, `RouteOrder` | matching a path against a parsed pattern, what each constraint means, and the order of parameter routes |
| `RouteTrie`, `ProbeTable`, `RouteDispatch`, `RouteLookup`, `RoutePlan` | the dispatch table: exact index, trie, candidate buckets; the scan and the compiled lookup; the table of a Plan |
| `Slrt`, `SlrtReaders` | `routes.slrt`: the emitter, the contract checker's parser and the runtime's validator |
| `Completeness`, `PlanContract`, `PlanEmission` | how complete a Plan claims to be, the contract a Plan is checked against, and the Plan that is emitted |
| `Resolver`, `ModuleGraph` | package `exports` and `imports` maps, and the dependency graph |
| `RingQueue`, `AsyncLoop`, `AsyncQueue`, `Arena` | the completion loop of the runtime over its ring queue, with callbacks that call it again, and the scoped arena |
| `SourcePositions`, `StaticStrings` | lines, columns and the printed frame with its carets; compile-time route strings over the compiler's two passes |
| `Runs` | runs of any machine, shared by `AsyncLoop`, `ModuleGraph` and `Arena` |
| `Texts`, `Permutations`, `Prelude` | splitting and joining, multisets, and option types |

## Main results

- **Erasure.** `SyntaxTrees.Erasable` says of a tree, form by form and separately for expressions, arguments, array
  elements, statements and `for` clauses, where a type or a child that holds one is handled. For every tree, layout
  and set of schema replacements the edits never fail; the text is the printed type-free tree if the handler is
  `Erasable`, and longer if one type stands elsewhere. In an arrow handler that returns `f((x as T))`, with any
  layout, one does.
- **Routing.** The exact index, trie and bucket lookup finds the same route as the scan of the sorted routes, for
  every table, hash and path. Of the routes of a Plan that match, the answer is the earliest among those with its
  labels, and against any other it has a text, or else a constraint, where the two first differ. The two lookups
  differ only in whether they report a method mismatch beside a found route; the mode that compares both therefore
  fails a request exactly when a route of another method on the same path stands where only the scan sees it
  (`RouteLookup.FindRoute`, `RoutePlan.ValidationCanFail`).
- **One syntax, two parsers.** The runtime accepts a pattern exactly when the compiler supports it, it has no `?`, it
  keeps to 64 segments and 32 parameters, and its parameter names are distinct. `/{id:int}` as parsed matches exactly
  the paths of one piece of digits, and likewise for every other constraint.
- **`routes.slrt`.** What the emitter writes is accepted by the runtime for the Plan emitted beside it and is read
  back in full by the contract checker; any file at all that the runtime accepts for a Plan is read by the contract
  checker as that Plan's routes, and one file is accepted for one Plan only.
- **Contract.** Each validator is silent exactly when a property stated without it holds. The emitted Plan and table
  always pass the handler, dispatch and provider-effect validators; the completeness validator passes exactly when no
  route pairs a partial response with a missing provider or deferred dispatch.
- **Every run.** The dependency graph loses nothing, keeps its two import lists in step, and after any run holds
  exactly the packages, builtins, runtime features, findings, assets, links and dynamic imports that the run met. In
  the async loop every callback, from retain to release, may call the loop again to any depth: still each callback of
  a completion is made once or never, in order, as its phase says, and the code is a run of that protocol. What is
  dispatched was not found terminal by its check, and what ends late was. A dispose finishes everything owned exactly
  when no post that was waiting for its retain at that moment came to be owned; a retain callback that disposes the
  loop leaves its completion queued for good.
- **Arena.** Blocks stay aligned, in bounds and apart. A mark from before any run of calls is accepted exactly when
  the run's resets are a multiple of 2^32 - 1 and the cursor is at or beyond it; accepted after a full round of
  generations it cuts a valid block. When going back to a mark within its generation restores what was valid then is
  characterised for every mark and run.
- **Diagnostics.** The first caret of a source frame stands under the byte of the span exactly on the lines 10 to 99.
- **Route strings.** The compiler binds the declarations of a whole file before it reads a route string, and accepts
  code it does not look into, which may assign every variable that is not `const`. The string is the one the program
  computes at the route, whatever such code does, if and only if a reading in program order that forgets would have
  recorded it too; with every name declared once, if and only if each name in it was declared before the route as a
  certain string and is `const` or untouched since by such code. Conversely, a pattern that is a given string for
  certain is read as that string unless it is parenthesized.

Where the code and its documentation differ, the code is modelled, each time with the exact condition: the arena's
stale marks (`include/sloppy/arena.h`), the async loop's dispose (`include/sloppy/async_backend.h`) and the compiler's
own completeness check.

## Model

| member | source | states |
|---|---|---|
| `SpanEdits.EditSourceSpans` | compiler/src/framework_runtime.rs:439-484 | the in-place loop makes the sorted edits one after the other, giving up on a span outside the current buffer |
| `SpanEdits.EditingIsSplice` | compiler/src/framework_runtime.rs:439-484 | for pairwise disjoint in-range edits it never gives up, although it tests against a changing buffer, and the result is one left-to-right splice of the untouched source |
| `SpanEdits.EditingIgnoresOrder` | compiler/src/framework_runtime.rs:444-463 | the order in which edits were collected does not matter, unless two edits want different texts for one span |
| `SpanEdits.SpliceLength` | compiler/src/framework_runtime.rs:464-484 | the result is as long as the source less the erased bytes plus the replacement bytes |
| `SpanEdits.CollectedEditsSplice` | compiler/src/framework_runtime.rs:439-484 | any collection order of the edits of a chain of non-empty spans produces the spliced text |
| `TypeErasure.Collect` | compiler/src/framework_runtime.rs:113-437 | the mutually recursive walk, by node kind and by the static type a node is visited through, collects the spans of exactly the types in the slots that `Handles` lists for its role, and of those below handled children |
| `TypeErasure.CollectPass` | compiler/src/framework_runtime.rs:65-111 | one loop of an arm over its parts collects the types and children of its slots |
| `TypeErasure.PassesAreTheHandledSlots` | compiler/src/framework_runtime.rs:122-437 | the arms of the walk, for each role and kind, reach exactly the slots that the description of erasable trees lists |
| `TypeErasure.EditsSplice` | compiler/src/framework_runtime.rs:65-484 | the spans of a printed tree are in bounds and disjoint, and editing with them yields what the walk leaves |
| `TypeErasure.LeftoverTypes` | compiler/src/framework_runtime.rs:200-417 | the text left is the stripped text if the tree is erasable in its role, and otherwise strictly longer |
| `TypeErasure.ErasedRenders` | compiler/src/framework_runtime.rs:200-284 | dropping types and unwrapping `as`, `satisfies` and `!` in the tree prints as the source with its types cut out |
| `TypeErasure.ErasedIsTypeFree` | compiler/src/framework_runtime.rs:200-284 | the type-free tree holds no type at any depth |
| `TypeErasure.ExecutableSource` | compiler/src/framework_runtime.rs:17-63 | a typed handler always gets a source; it is the printed type-free handler if every type stands where it is handled, and longer if one does not |
| `TypeErasure.AnnotationIsErased` | compiler/src/framework_runtime.rs:65-111 | an arrow handler with an annotated parameter, whatever the texts, is erasable and prints without the annotation |
| `TypeErasure.ParenthesizedArgumentKeepsItsType` | compiler/src/framework_runtime.rs:286-354 | a cast in a parenthesized argument is erasable as an expression and not as an argument; in an arrow handler that returns such a call, with any text around it, the executable source is longer than the type-free handler |
| `RoutePatterns.SupportedExactly` | compiler/src/sloppyc.rs:3483-3532 | a pattern is supported exactly when it is the root or a slash followed by supported segments |
| `RoutePatterns.PatternRoundTrip` | compiler/src/sloppyc.rs:3483-3491 | an absolute pattern is given back by its segments |
| `RoutePatterns.SegmentsRoundTrip` | compiler/src/sloppyc.rs:3483-3491 | slash-free segments are given back by their pattern |
| `RoutePatterns.JoinSegments` | compiler/src/sloppyc.rs:3543-3557 | joining absolute patterns concatenates their segments |
| `RoutePatterns.JoinIdentity` | compiler/src/sloppyc.rs:3543-3557 | `/` is the identity of joining |
| `RoutePatterns.JoinRelative` | compiler/src/sloppyc.rs:3543-3557 | a child without its slash joins as with it |
| `RoutePatterns.JoinAssociative` | compiler/src/sloppyc.rs:3543-3557 | joining is associative |
| `RoutePatterns.NestingDoesNotMatter` | compiler/src/sloppyc.rs:3543-3557 | nested groups with the same prefixes in the same order give the same route, however they are bracketed |
| `RoutePatterns.JoinSupported` | compiler/src/sloppyc.rs:3483-3557 | supported patterns join to a supported pattern |
| `RoutePatterns.JoinAddsParams` | compiler/src/graph.rs:706-716 | joining adds the parameter counts |
| `RoutePatterns.NormalizePattern` | compiler/src/sloppyc.rs:3493-3506 | the segment loop rewrites `:name` segments to braces and nothing else |
| `RoutePatterns.NormalizeSegments` | compiler/src/sloppyc.rs:3493-3506 | on absolute patterns normalization works segment by segment, also through its early return |
| `RoutePatterns.ColonsBecomeBraces` | compiler/src/sloppyc.rs:3493-3506 | a segment `:name` becomes `{name}`, every other stays, and no segment starts with a colon afterwards |
| `RoutePatterns.NormalizeIdempotent` | compiler/src/sloppyc.rs:3493-3506 | normalizing twice is normalizing once |
| `RoutePatterns.NormalizeJoin` | compiler/src/sloppyc.rs:3493-3557 | normalization commutes with joining |
| `RoutePatterns.RouteParameterNames` | compiler/src/graph.rs:687-704 | the loop collects the names of `:name` and braced segments |
| `RoutePatterns.NormalizeKeepsNames` | compiler/src/graph.rs:687-704 | if the normalized path is supported, both paths have the same parameter names |
| `RoutePatterns.NamesAgainstCount` | compiler/src/graph.rs:687-716 | there are at most as many names as parameters, and equally many exactly when no name repeats |
| `RouteParser.ParamNameValid` | src/core/route.c:114-139 | the runtime's loop over a name accepts exactly the names the compiler supports |
| `RouteParser.ParseParamSegment` | src/core/route.c:198-293 | one pass over the inner text finds the same name and kind as splitting at the first colon, and rejects a name already used |
| `RouteParser.ParseSegment` | src/core/route.c:324-345 | a segment is read as the compiler's syntax check would, or rejected |
| `RouteParser.ParsePattern` | src/core/route.c:476-545 | the parse loop is a left fold over the segments with the two bounds and the name check |
| `RouteParser.ParseFrom` | src/core/route.c:381-474 | the loop over the segments, with its running count of parameters |
| `RouteParser.FoldExactly` | src/core/route.c:381-474 | the fold succeeds exactly when the finished list is within the bounds and has distinct names |
| `RouteParser.RuntimeAcceptsExactly` | src/core/route.c:381-545 | the runtime accepts a pattern exactly when the compiler supports it, it has no `?`, at most 64 segments and 32 parameters, and distinct names; the segments are then the same |
| `RouteParser.RuntimeAgreesOnParams` | src/core/route.c:347-379 | compiler and runtime count the same parameters |
| `RouteMatching.MatchesUuid` | src/core/http_dispatch.c:2269-2296 | the loop accepts exactly hyphenated hexadecimal of the fixed shape |
| `RouteMatching.MatchesFloat` | src/core/http_dispatch.c:2298-2320 | the loop accepts exactly the digits around one dot, with at least one digit |
| `RouteMatching.MatchesKind` | src/core/http_dispatch.c:2322-2340 | each constraint as a property of the text |
| `RouteMatching.ConstraintsAreExclusive` | src/core/http_dispatch.c:2238-2340 | no text satisfies two different constraints, so at most one constrained edge of a node can take a piece |
| `RouteMatching.CouldMatch` | src/core/http_dispatch.c:2342-2395 | the byte loop decides whether pattern and path have the same number of segments, each non-empty and accepted in its place |
| `RouteConstraints.TextMeans` | src/core/route.c:324-345 | a pattern of one segment without braces matches its own text only |
| `RouteConstraints.UnconstrainedMeans` | src/core/route.c:198-293 | `/{name}` matches exactly the paths of one piece |
| `RouteConstraints.StrMeans` | src/core/route.c:157-196 | so does `/{name:str}` |
| `RouteConstraints.IntMeans` | src/core/http_dispatch.c:2238-2340 | `/{name:int}` matches exactly the paths of one piece of digits |
| `RouteConstraints.AlphaMeans` | src/core/http_dispatch.c:2238-2340 | `/{name:alpha}`, of ASCII letters |
| `RouteConstraints.FloatMeans` | src/core/http_dispatch.c:2298-2320 | `/{name:float}`, of digits around one dot |
| `RouteConstraints.UuidMeans` | src/core/http_dispatch.c:2269-2296 | `/{name:uuid}`, of hexadecimal digits with dashes at their four places |
| `RouteConstraints.NamesExactly` | src/core/route.c:114-139 | `/{name}` is accepted exactly when the name is of ASCII letters, digits and underscores and does not start with a digit |
| `RouteConstraints.ParameterName` | compiler/src/graph.rs:687-704 | the compiler gives a parameter the name it is written with, after a colon, in braces and with a constraint |
| `RouteConstraints.PiecesMatchOneByOne` | src/core/http_dispatch.c:2342-2395 | a pattern matches a path exactly when there are as many segments and each, as a pattern of its own, matches its piece |
| `RouteOrder.EntryLess` | src/core/http_dispatch.c:845-877 | the comparison loop computes the order of routes |
| `RouteOrder.LessExactly` | src/core/http_dispatch.c:845-877 | that order: the first segments that can be told apart decide, text before parameter, constrained before free, lesser text first; without such segments the longer pattern, then the earlier in the Plan |
| `RouteOrder.TextLessExactly` | src/core/http_dispatch.c:868-870 | texts compare by the first byte that differs, a proper prefix first |
| `RouteOrder.LessIsStrictOrder` | src/core/http_dispatch.c:845-891 | the order is asymmetric, transitive and total on routes with distinct Plan positions, as sorting needs |
| `RouteOrder.SortSorts` | src/core/http_dispatch.c:916-922 | sorting with it orders every pair |
| `RouteOrder.SortKeeps` | src/core/http_dispatch.c:916-922 | sorting loses and invents no route |
| `ProbeTable.Insert` | src/core/http_dispatch.c:1086-1140 | while a slot is free an insertion never fails, and every stored key stays reachable through older entries, for any hash |
| `ProbeTable.Find` | src/core/http_dispatch.c:2162-2193 | a lookup returns the first key equal to the one sought, or nothing when there is none, for any hash |
| `ProbeTable.EverySlotIsProbed` | src/core/http_dispatch.c:1094-1107 | one round of linear probing visits every slot |
| `RouteTrie.FindEdge` | src/core/http_dispatch.c:1346-1367 | following the links of a node finds the child for a label exactly when the trie has one |
| `RouteTrie.AddEdge` | src/core/http_dispatch.c:1306-1329 | appending an edge keeps every chain, owner and place in order and adds one place |
| `RouteTrie.InsertRoute` | src/core/http_dispatch.c:1442-1505 | inserting a route keeps the trie valid, spells its labels, and gives its end to the first route there |
| `RouteTrie.BuildTrie` | src/core/http_dispatch.c:1369-1516 | the trie indexes all parameter routes and never outgrows one edge per segment |
| `RouteTrie.BestEdge` | src/core/http_dispatch.c:2611-2650 | of the edges that take a piece the best rank wins, and the first of its rank |
| `RouteTrie.WalkEndsOnFirst` | src/core/http_dispatch.c:2652-2719 | a greedy walk, with no backtracking, that ends on a route ends on the first match of the sorted list |
| `RouteTrie.MatchTrie` | src/core/http_dispatch.c:2652-2719 | whatever the trie answers is the first match of the sorted parameter routes |
| `RouteDispatch.ExactMatchesItself` | src/core/http_dispatch.c:2342-2395 | a parameterless pattern matches one path, its own text |
| `RouteDispatch.FindLinear` | src/core/http_dispatch.c:2877-2907 | the scan returns the first match, and reports a mismatch exactly when a route of another method on the path precedes it |
| `RouteDispatch.BuildBuckets` | src/core/http_dispatch.c:1171-1286 | every parameter route is in the bucket of its method and first static segment, in order, and in no other |
| `RouteDispatch.ScanCandidates` | src/core/http_dispatch.c:2553-2590 | merging two buckets in table order finds the first match among all routes |
| `RouteDispatch.PartitionExactFirst` | src/core/http_dispatch.c:893-914 | swapping in place moves the parameterless routes to the front in Plan order and keeps all routes |
| `RouteDispatch.NextBucketCount` | src/core/http_dispatch.c:991-1007 | the least power of two that is at least twice the count, which every index size and probe mask rests on |
| `RouteDispatch.HasDuplicates` | src/core/http_dispatch.c:1027-1083 | true exactly when two routes have one method and one pattern, for every hash |
| `RoutePlan.BuildTable` | src/core/http_dispatch.c:2059-2160 | from a Plan: refused for repeated routes, repeated handlers, an unsupported method or the first faulty route, in that order, or for a count beyond the address space; else a table of exactly its routes whose exact index, trie, buckets and order are consistent, the parameterless routes in Plan order |
| `RoutePlan.HasDuplicateHandlers` | src/core/plan.c:328-345 | the nested loops answer true exactly when an id occurs twice |
| `RoutePlan.FillEntries` | src/core/http_dispatch.c:1591-1652 | every route becomes its entry, or the fault of the first that cannot is returned |
| `RoutePlan.FaultsExactly` | src/core/http_dispatch.c:1591-1652 | a route is refused for a method that is none of the six, else for a handler id that is zero or unknown, else for a pattern that is not parsed |
| `RoutePlan.RouteIsEntry` | src/core/http_dispatch.c:1591-1652 | every route of the table is the Plan's at the position its order says, with that pattern and method |
| `RoutePlan.RefusedExactly` | src/core/http_dispatch.c:2085-2130 | every Plan has one reason to be refused or none, and none exactly when its routes and handlers are distinct and every route has a method, a handler and a pattern |
| `RoutePlan.BuiltExactly` | src/core/http_dispatch.c:2059-2160 | a Plan that fits is built exactly when it has no such reason |
| `RouteLookup.FindExact` | src/core/http_dispatch.c:2162-2193 | the exact index answers with the first parameterless route that matches |
| `RouteLookup.FindParam` | src/core/http_dispatch.c:2727-2819 | trie, then buckets: the first parameter route that matches |
| `RouteLookup.ExactOther` | src/core/http_dispatch.c:2195-2222 | true exactly when a parameterless route of another method has the path, also through the single-method shortcut |
| `RouteLookup.ParamOther` | src/core/http_dispatch.c:2841-2875 | true exactly when a parameter route of another method matches |
| `RouteLookup.FindCompiled` | src/core/http_dispatch.c:2909-3001 | the compiled lookup returns the route the scan returns, and says which mismatches it reports |
| `RouteLookup.FindRoute` | src/core/http_dispatch.c:3003-3052 | all modes return the first match and the same mismatch flag when there is none, for HEAD as for GET; the validating mode fails exactly when a route of another method is seen by the scan alone |
| `RouteLookup.MostSpecificWins` | src/core/http_dispatch.c:845-891 | in an arranged table the first match beats every other route of its method on the path: earlier with the same labels, else more specific at the first difference |
| `RoutePlan.AnswerIsMostSpecific` | src/core/http_dispatch.c:845-922 | of the routes of a Plan that match a request, the answer is the earliest in the Plan among those with its labels; against one with other labels it has a text against a parameter, or a constraint against none, at the first difference |
| `RoutePlan.ValidationCanFail` | src/core/http_dispatch.c:3022-3046 | the Plan with GET and POST on one path is built, and the validating mode fails its POST request |
| `Slrt.RuntimeChecksum` | src/core/route_artifact.c:81-95 | the runtime's loop computes FNV-1a modulo 2^64 with the checksum field read as zero |
| `Slrt.EmitterChecksum` | compiler/src/route_artifact.rs:210-222 | the emitter's loop computes the same value on every file |
| `Slrt.ChecksumIgnoresItsField` | compiler/src/route_artifact.rs:210-222 | files that differ only in the checksum field have one checksum |
| `Slrt.FnvOfA` | compiler/src/route_artifact.rs:210-222 | the published FNV-1a hash of one text |
| `Slrt.LittleEndian` | src/core/route_artifact.c:64-68 | a word is its first byte plus 256 times the second, and so on |
| `Slrt.NumberOfDigits` | compiler/src/route_artifact.rs:198-204 | reading little-endian bytes undoes writing them, at any width |
| `Slrt.NumbersOfWords` | compiler/src/route_artifact.rs:198-200 | reading a run of words undoes writing it |
| `Slrt.NumbersAt` | src/core/route_artifact.c:64-68 | word `i` of a piece is the number at byte `4 * i` |
| `Slrt.GatherEntries` | compiler/src/route_artifact.rs:93-132 | the first loop builds all entries with their string offsets, or stops only where the routes cannot be emitted |
| `Slrt.Emit` | compiler/src/route_artifact.rs:76-171 | nothing for other projects; otherwise the layout with its checksum patched in, or an error exactly when a method is unknown or a size exceeds 32 bits |
| `Slrt.StoredSumMatches` | compiler/src/route_artifact.rs:166-171 | the stored checksum is the checksum of the finished file |
| `SlrtReaders.ParseArtifact` | compiler/src/compiler_contract.rs:563-621 | all entries or an error; no read leaves the file |
| `SlrtReaders.Validate` | src/core/route_artifact.c:243-371 | accepts exactly the files whose header, ranges, checksum, hash and entries agree with the Plan |
| `SlrtReaders.ValidateEntry` | src/core/route_artifact.c:138-241 | an entry is accepted exactly when method, handler, pattern and name are the Plan's and its kind is known |
| `SlrtReaders.EmittedIsAccepted` | src/core/route_artifact.c:243-371 | every emitted file is accepted for the Plan of the same routes |
| `SlrtReaders.EmittedIsParsed` | compiler/src/compiler_contract.rs:563-621 | parsing an emitted file returns, in order, each route's method, position plus one, pattern and execution kind |
| `SlrtReaders.EmittedRouteReads` | compiler/src/route_artifact.rs:53-68 | read back, a route has its method, position and pattern, and the kind `native-static-` with its response kind exactly when it has no effects, a native body and one of the four kinds; else `v8-handler` |
| `SlrtReaders.EmittedCodes` | compiler/src/route_artifact.rs:42-50 | the words of entry `i` in the file: the method and kind by number, handler id, pattern length, strategy and parameter count |
| `SlrtReaders.EmittedHeader` | compiler/src/route_artifact.rs:134-150 | the header of the file: version, byte-order mark, sizes and places of the two tables |
| `SlrtReaders.AcceptedIsParsed` | compiler/src/compiler_contract.rs:563-652 | any file accepted for a Plan is parsed as that Plan's routes, and fails to parse exactly when a method is unknown or a pattern is not valid text |
| `SlrtReaders.AcceptedPlanIsUnique` | src/core/route_artifact.c:138-241 | one file is accepted for at most one Plan with known methods |
| `SlrtReaders.AcceptedMeans` | src/core/route_artifact.c:243-371 | an accepted file starts with its magic, has version, mark and sizes as stated, tables inside the file, and the right checksum and hash |
| `Completeness.ReasonsAreExact` | compiler/src/validation.rs:103-145 | each reason is given once and exactly for what it names; a missing provider, then a runtime-only route, hides the others |
| `Completeness.RouteGradeIsHonest` | compiler/src/validation.rs:103-145 | a route is invalid exactly for a missing provider, runtime-only exactly if deferred otherwise, and complete exactly when all evidence is; it has a reason exactly when it is not complete |
| `Completeness.GradePlan` | compiler/src/validation.rs:147-206 | the nested loops collect the reasons of the partial routes once each, in order of first occurrence |
| `Completeness.AddAllCollects` | compiler/src/validation.rs:184-194 | the collected reasons are the union, without repetition |
| `Completeness.PlanIsWorstRoute` | compiler/src/validation.rs:147-206 | no route is worse than the Plan, and the Plan is no worse than some route |
| `Completeness.StatusConcat` | compiler/src/validation.rs:147-206 | the status of a concatenation is the more severe of the two |
| `Completeness.StatusPermutes` | compiler/src/validation.rs:147-206 | reordering the routes changes neither the status nor the set of reasons |
| `Completeness.GradingInStages` | compiler/src/validation.rs:147-206 | grading two parts and then their grades gives the grade of the whole |
| `Completeness.CompleteExactly` | compiler/src/validation.rs:147-206 | a Plan is complete exactly when every route is complete, declared or opaque, and has a reason exactly when it is not |
| `Completeness.PlanStatusExactly` | compiler/src/validation.rs:147-206 | a Plan is invalid, else runtime-only, else dynamic, else partial, each exactly when some route is |
| `Completeness.PlanReasonsExactly` | compiler/src/validation.rs:147-206 | the reason of each of the three worst, by name; of a partial Plan, those of its partial routes, once each |
| `PlanContract.ValidateHandlers` | compiler/src/compiler_contract.rs:106-177 | silent exactly when handler ids are present and distinct and every route names one of them in both places |
| `PlanContract.ValidateDispatch` | compiler/src/compiler_contract.rs:179-358 | silent exactly when kinds are known, effect routes use the engine and carry no native response, the native count is right, and hash and entries of the binary table agree |
| `PlanContract.ValidateEffects` | compiler/src/compiler_contract.rs:360-411 | silent exactly when every effect names a declared capability or its route admits the missing provider |
| `PlanContract.ValidateCompleteness` | compiler/src/compiler_contract.rs:413-442 | silent exactly when every incomplete route gives a reason and every partial response is mentioned |
| `PlanContract.SilentHandlers` | compiler/src/compiler_contract.rs:106-177 | in a Plan without violations each route names, as handler and as endpoint, one handler that occurs once |
| `PlanContract.SilentDispatch` | compiler/src/compiler_contract.rs:179-358 | its execution kind is one of five, and `v8-handler` without a native response when it has effects |
| `PlanContract.SilentCount` | compiler/src/compiler_contract.rs:179-358 | the native count is the number of routes that are not for the engine |
| `PlanContract.SilentEffects` | compiler/src/compiler_contract.rs:360-411 | each effect has a capability with its provider and kind, or the route admits the missing provider |
| `PlanContract.SilentCompleteness` | compiler/src/compiler_contract.rs:413-442 | a route without a reason is complete, and a partial response is among the reasons |
| `PlanContract.ArtifactPinsRoutes` | compiler/src/compiler_contract.rs:268-358 | two Plans that agree with one binary table have the same methods, patterns, handlers and kinds |
| `PlanEmission.CountNativeEndpoints` | compiler/src/plan_emit/plan_helpers.rs:502-542 | the counter is the number of routes answered without the engine |
| `PlanEmission.EmittedPlanExactly` | compiler/src/plan_emit.rs:50-64 | no Plan exactly for a program with routes; its kind, hash, handlers and capabilities |
| `PlanEmission.EmittedRouteExactly` | compiler/src/plan_emit.rs:374-385 | an emitted route has its method, pattern and ids, and the native kind of its response exactly when it has no effects, a native body and one of the four kinds |
| `PlanEmission.EmittedStatusExactly` | compiler/src/plan_emit.rs:66-110 | its status in terms of the route: invalid exactly when an effect asks for an unregistered capability, else runtime-only when deferred, else partial for any doubt, else complete |
| `PlanEmission.EmittedReasonsExactly` | compiler/src/plan_emit.rs:83-110 | its reasons by code, each exactly for the evidence it names |
| `PlanEmission.EmittedHandlersAgree` | compiler/src/plan_emit.rs:140-194 | every emitted Plan passes the handler validator |
| `PlanEmission.EmittedDispatchAgrees` | compiler/src/plan_emit.rs:374-385 | Plan and binary table of one application pass the dispatch validator: routes, kinds, native count and hash |
| `PlanEmission.EmittedDispatchAgreesAlone` | compiler/src/plan_emit.rs:542-552 | without a binary table, and for programs, the Plan passes it too |
| `PlanEmission.EmittedEffectsResolve` | compiler/src/plan_emit.rs:67-110 | although emission compares triples and the validator pairs, every emitted effect resolves or is admitted |
| `PlanEmission.EmittedPlanHonestExactly` | compiler/src/plan_emit.rs:86-110 | the emitted Plan passes the completeness validator exactly when no route pairs a partial response with a missing provider or deferred dispatch |
| `PlanEmission.CompletenessCanFail` | compiler/src/plan_emit.rs:86-110 | a deferred route with a partial response fails it |
| `PlanEmission.StrategiesAgree` | compiler/src/plan_emit.rs:545-549 | Plan strategy, artifact strategy and the runtime's parse agree on which routes have parameters |
| `Resolver.SplitIsExact` | compiler/src/resolver.rs:479-497 | the name is a package name, and name and subpath are the specifier again |
| `Resolver.SplitOfJoined` | compiler/src/resolver.rs:479-497 | every package name, alone or with a subpath, is split where it was joined |
| `Resolver.FindAncestor` | compiler/src/resolver.rs:515-525 | the upward search returns the nearest directory that holds the package |
| `Resolver.TargetStaysInside` | compiler/src/resolver.rs:499-504 | an accepted target means the package root followed by its own segments |
| `Resolver.ResolvedStaysInside` | compiler/src/resolver.rs:707-752 | for every JSON value, depth, mode and wildcard, a resolved target lies at or below the package root where `/` separates |
| `Resolver.StaysExactly` | compiler/src/resolver.rs:499-504 | any target stays at or below every root exactly when its walk never goes above its start |
| `Resolver.ResolvedStaysOnWindows` | compiler/src/resolver.rs:707-752 | where a backslash separates too, a resolved target without one stays inside as well |
| `Resolver.BackslashCanLeave` | compiler/src/resolver.rs:499-504 | with one it need not: `./..\x` is accepted, and read that way goes above its start |
| `Resolver.UnlistedConditionsAreIgnored` | compiler/src/resolver.rs:722-752 | removing members under conditions the mode does not list, at every depth, changes no result |
| `Resolver.ModesAgree` | compiler/src/resolver.rs:722-752 | import and require resolve alike wherever no object has an `import` or `require` member |
| `Resolver.FirstConditionWins` | compiler/src/resolver.rs:727-751 | of the conditions present the first in the fixed order decides; without one there is an error |
| `Resolver.PlainTargetsResolve` | compiler/src/resolver.rs:713-721 | a target of plain segments is taken as it is, and refused if one is not plain |
| `Resolver.MatchIsSubstitution` | compiler/src/resolver.rs:681-697 | a key matches with a star exactly when it has one star and putting the text back gives the request |
| `Resolver.StarGoesIntoTarget` | compiler/src/resolver.rs:713-721 | what the star of a key took goes into the star of its target |
| `Resolver.ResolvePattern` | compiler/src/resolver.rs:646-672 | the first key that matches or has several stars decides, in the order of the map |
| `Resolver.DetectShape` | compiler/src/resolver.rs:557-573 | the flags tell subpath maps, condition maps, mixtures and empty maps apart |
| `Resolver.ResolveExports` | compiler/src/resolver.rs:575-632 | each shape is resolved or refused as stated; an exact key beats every pattern |
| `Resolver.ResolveImports` | compiler/src/resolver.rs:634-644 | exact keys first, then patterns, and nothing when neither applies |
| `Resolver.ExactKeyWins` | compiler/src/resolver.rs:606-644 | a key that is the request wins over every pattern, wherever it stands |
| `Resolver.FirstPatternAnswers` | compiler/src/resolver.rs:646-672 | without one the first pattern that takes the request answers, with its star |
| `Resolver.AnswerStaysInside` | compiler/src/resolver.rs:575-672 | whatever either map resolves to lies inside the package |
| `ModuleGraph.LinkKeeps` | compiler/src/sloppyc.rs:1329-1342 | one link keeps `imports` equal to the first occurrences of the specifiers in `resolved_imports` |
| `ModuleGraph.RunKeeps` | compiler/src/sloppyc.rs:1144-1395 | every sequence of updates keeps module ids, packages, builtins and assets unique and the import lists in step |
| `ModuleGraph.RunExtends` | compiler/src/sloppyc.rs:1144-1395 | whatever follows, modules keep their places, known packages stay known, the first includer stays, and no import or finding is lost |
| `ModuleGraph.ImportsSurvive` | compiler/src/sloppyc.rs:1278-1288 | a relative import seen anywhere in a sequence leaves both modules and the link in the final graph |
| `ModuleGraph.PackagesExactly` | compiler/src/sloppyc.rs:1144-1169 | after any run a package is known exactly when it was found |
| `ModuleGraph.BuiltinsExactly` | compiler/src/sloppyc.rs:1171-1221 | a builtin exactly when it was used |
| `ModuleGraph.RuntimesExactly` | compiler/src/sloppyc.rs:1171-1221 | a runtime feature is on exactly when a builtin of that capability was used, or one of `redis` for the network |
| `ModuleGraph.FindingsExactly` | compiler/src/sloppyc.rs:1171-1221 | there is a finding exactly for each builtin used that is not supported |
| `ModuleGraph.AssetsExactly` | compiler/src/sloppyc.rs:1381-1395 | an asset exactly when it was found |
| `ModuleGraph.LinksExactly` | compiler/src/sloppyc.rs:1278-1343 | an import is resolved in a module exactly when some command of the run links them |
| `ModuleGraph.DynamicsExactly` | compiler/src/sloppyc.rs:1345-1379 | the dynamic imports of a module are all those met, repetitions included, in order |
| `ModuleGraph.SeenAgain` | compiler/src/sloppyc.rs:1223-1259 | a module seen again: the latest source, format and given package, the first includer; imports and all other modules stay |
| `ModuleGraph.SeenFirst` | compiler/src/sloppyc.rs:1223-1259 | a module seen first is added last, without imports |
| `ModuleGraph.ImportsAreSteps` | compiler/src/sloppyc.rs:1261-1298 | a relative import sees both modules as sources and then links them, a package import its own |
| `ModuleGraph.Recorder.AddPackageRecord` | compiler/src/sloppyc.rs:1144-1169 | one step: recorded once for each name and root |
| `ModuleGraph.Recorder.AddNodeBuiltin` | compiler/src/sloppyc.rs:1171-1221 | one step: recorded once, its runtime switched on, a finding when unsupported |
| `ModuleGraph.Recorder.AddDependencyModule` | compiler/src/sloppyc.rs:1223-1259 | one step: a new record, or an update that never forgets a package or an includer |
| `ModuleGraph.Recorder.AddRelativeDependencyImport` | compiler/src/sloppyc.rs:1278-1288 | one step: both modules and the link |
| `ModuleGraph.Recorder.AddPackageDependencyImport` | compiler/src/sloppyc.rs:1290-1298 | one step: the importing module and the link |
| `ModuleGraph.Recorder.AddDependencyImport` | compiler/src/sloppyc.rs:1300-1343 | one step: the module if missing, then the two lists |
| `ModuleGraph.Recorder.AddDynamicImport` | compiler/src/sloppyc.rs:1345-1379 | one step: the module if missing, then the dynamic import |
| `ModuleGraph.Recorder.AddDependencyAsset` | compiler/src/sloppyc.rs:1381-1395 | one step: recorded once for each path and includer |
| `RingQueue.Queue.Push` | src/core/container.c:385-407 | appends to the queue of values, or refuses when it is full |
| `RingQueue.Queue.PopFront` | src/core/container.c:409-453 | takes the oldest value |
| `RingQueue.Queue.PopBack` | src/core/container.c:455-476 | takes the newest value |
| `RingQueue.PushBack` | src/core/container.c:385-407 | writing at the wrapped tail is appending |
| `RingQueue.PopFirst` | src/core/container.c:427-445 | blanking the head and moving it on, round the end, drops the first value only |
| `AsyncLoop.EveryRun` | include/sloppy/async_backend.h:87-128 | after any sequence of calls from outside and from any callback, returns and dispose rounds: the callbacks made for each completion are those of its phase, in order; who waits for a callback has a frame and who is pending a place in the queue |
| `AsyncLoop.ExactlyOnce` | src/core/async_backend.c:111-173 | in every reachable state each callback has been made once or never, as the phase says: cleaned and released once when done, dispatched once unless late or dropped |
| `AsyncLoop.CheckDecides` | src/core/async_backend.c:135-160 | in every reachable state what was dispatched was not found terminal by its check, what ended late was, and what ran with a check was answered no |
| `AsyncLoop.RetainDecides` | src/core/async_backend.c:69-75 | a post is refused exactly when its retain said no, and owned only if it said yes |
| `AsyncLoop.Accounting` | src/core/async_backend.c:56-173 | in every reachable state the owned completions are those queued, running and done, and all running callbacks are the frames of the stack |
| `AsyncLoop.DisposedExactly` | src/core/async_backend.c:64-77 | after a dispose, with all calls returned, an owned completion is done exactly when its post was not waiting for its retain at the moment of the dispose |
| `AsyncLoop.CleanExactly` | include/sloppy/async_backend.h:99-108 | everything owned has been finished if and only if none of those posts came to be owned |
| `AsyncLoop.DisposedIsClean` | src/core/async_backend.c:286-299 | when no retain callback disposes the loop, everything owned has been cleaned and released once |
| `AsyncLoop.StrandedForever` | src/core/async_backend.c:175-299 | what stands in the queue of a disposed loop whose dispose has returned is never cleaned or released, whatever follows |
| `AsyncLoop.RetainThatDisposes` | src/core/async_backend.c:64-82 | a retain callback that disposes the loop: the push succeeds on the disposed loop |
| `AsyncLoop.RetainThatFills` | src/core/async_backend.c:77-81 | a retain callback that fills the queue: the push fails and the scope is released again |
| `AsyncLoop.FailedPostTakesNothing` | src/core/async_backend.c:56-83 | in every reachable state a post that failed was never dispatched, hooked or cleaned, and its scope was released exactly if its retain succeeded and the push failed |
| `AsyncQueue.Backend.Post` | src/core/async_backend.c:56-83 | with a retain and a release that may call the loop again: a run of the protocol; each refusal in its order; past the checks it ends refused, pending or given back, as its status says |
| `AsyncQueue.Backend.CallbacksExactlyOnce` | src/core/async_backend.c:111-173 | of the callbacks the code makes, each is made once or never, as the phase says |
| `AsyncQueue.Backend.RunOnce` | src/core/async_backend.c:175-200 | with callbacks that may call the loop again: a run of the protocol that takes the oldest completion and leaves it done: late, with a good status, if its check answered yes, else dispatched, with the status its dispatch callback returned |
| `AsyncQueue.Backend.Dispatch` | src/core/async_backend.c:141-160 | the completion goes through its callbacks, each a place where the loop may be called, and ends done, late exactly if its check answered yes |
| `AsyncQueue.OutcomeExactly` | src/core/async_backend.c:149-159 | the status of a turn: good if the check answered yes, else what the dispatch callback returned |
| `AsyncQueue.Backend.Finish` | src/core/async_backend.c:122-133 | cleanup, then release, each if there is one |
| `AsyncQueue.Backend.Drain` | src/core/async_backend.c:202-240 | a run of the protocol that takes different completions until nothing waits, the limit is reached, a dispatch fails, or a turn is refused because a callback disposed the loop; without calls from callbacks it takes the oldest in order |
| `AsyncQueue.Backend.Dispose` | src/core/async_backend.c:286-299 | a run of the protocol after which the queue is empty and everything that was queued is done; the callbacks appended are exactly the cleanups and releases of the queue, oldest first; a second dispose does nothing |
| `Arena.ScopedArena.constructor` | src/core/arena.c:68-85 | an empty arena of the first generation |
| `Arena.ScopedArena.Alloc` | src/core/arena.c:174-235 | succeeds exactly when the aligned block fits; the block is aligned, in bounds and after every valid block, and the high water is the largest offset reached |
| `Arena.ScopedArena.ResetTo` | src/core/arena.c:149-172 | accepted exactly for the current generation and an offset not beyond the used one; exactly the blocks below the mark stay valid |
| `Arena.ScopedArena.Reset` | src/core/arena.c:87-111 | no block stays valid, the high water does, and the generation moves on, skipping zero |
| `Arena.ScopedArena.Dispose` | src/core/arena.c:113-133 | the buffer is let go and the generation moves on |
| `Arena.ScopedArena.Remaining` | src/core/arena.c:247-254 | used and remaining bytes make up the capacity |
| `Arena.PaddingAligns` | src/core/arena.c:43-66 | the padded address is a multiple of the alignment |
| `Arena.PaddingIsLeast` | src/core/arena.c:43-66 | no smaller padding would be |
| `Arena.FitsExactly` | src/core/arena.c:174-235 | an allocation fits exactly when some aligned address from the cursor on leaves room for it |
| `Arena.DisposedRefuses` | src/core/arena.c:113-133 | after a dispose no allocation succeeds and no block is valid, whatever is called |
| `Arena.BelowExactly` | src/core/arena.c:149-172 | of packed blocks, those that end at or below the mark are kept, and only those |
| `Arena.MarkRestoresExactly` | include/sloppy/arena.h:77-90 | after any run of calls within the generation, going back to any mark restores the cursor and exactly the blocks valid then, if and only if the cursor ends at or beyond it, the run never went back below the last of those blocks, and no other block ends at or below the mark |
| `Arena.CursorBeyondTheLastBlock` | src/core/arena.c:149-172 | a reset to a mark can leave the cursor beyond the last valid block |
| `Arena.MarkAcceptedExactly` | include/sloppy/arena.h:85-90 | a mark from before any run is accepted after it exactly when the run's resets are a multiple of the number of generations and the cursor is at or beyond the mark |
| `Arena.StaleMarkCuts` | src/core/arena.c:149-172 | after 2^32 - 1 resets and one allocation an old mark is accepted and cuts the valid block that reaches across it |
| `SourcePositions.LineColumn` | compiler/src/source.rs:11-28 | the line is one more than the newlines before the offset, the column counts from the start of that line, also past the end |
| `SourcePositions.PositionsAreUnique` | compiler/src/source.rs:11-28 | within a file a line and column determine the offset |
| `SourcePositions.LineBoundsExactly` | compiler/src/source.rs:30-44 | the line of an offset runs from after a newline to before the next, less a carriage return at its end |
| `SourcePositions.SourceFrame` | compiler/src/source.rs:46-65 | a frame for every offset in the file and none beyond; its line, column and the two last rows as printed |
| `SourcePositions.ByteInRow` | compiler/src/source.rs:30-57 | the framed line holds no newline, and the byte of the span stands in the printed row after the line number and three bytes |
| `SourcePositions.CaretsInRow` | compiler/src/source.rs:53-63 | from its first caret the row is carets, as many as bytes to underline but at most one past the text |
| `SourcePositions.DecimalReadsBack` | compiler/src/source.rs:53-57 | the printed line number reads back |
| `SourcePositions.CaretIsUnderTheByteExactly` | compiler/src/source.rs:53-63 | the first caret stands under the byte of the span exactly on the lines 10 to 99, one byte to its right before and to its left after |
| `SourcePositions.CaretMissesOnTheFirstLine` | compiler/src/source.rs:53-63 | in a file of one line the caret for the first byte stands under the second |
| `StaticStrings.StaticIsSound` | compiler/src/static_eval.rs:22-60 | a string found at compile time is the value in every program state that agrees with the bindings |
| `StaticStrings.StaticExactly` | compiler/src/static_eval.rs:22-60 | a string is found exactly when every leaf is a literal or a bound name, and is their texts joined in order |
| `StaticStrings.BindAll` | compiler/src/sloppyc.rs:2133-2148 | the loop over the declarators of a file leaves the bindings of the static initializers |
| `StaticStrings.LastStaticDeclarationCounts` | compiler/src/sloppyc.rs:2133-2148 | the string of a name is that of its last declaration with a static initializer |
| `StaticStrings.BoundByDeclaration` | compiler/src/sloppyc.rs:2133-2148 | a name without such a declaration is not bound |
| `StaticStrings.CertainExactly` | compiler/src/static_eval.rs:22-60 | after statements an expression is a given string, whatever code that is not looked into yields and assigns, exactly when a reading says so that forgets at every other initializer and, wherever such code may run, every name that is not `const` |
| `StaticStrings.TrueExactlyWhenFresh` | compiler/src/sloppyc.rs:2133-2148 | the recorded strings are right after every statement exactly when no bound name is declared anew with an initializer that is not static, and other code runs only while all bound names are `const` |
| `StaticStrings.ConstantsAreFresh` | compiler/src/sloppyc.rs:2133-2148 | with `const` only, each declared once, that is always the case |
| `StaticStrings.ExtractRoutes` | compiler/src/sloppyc.rs:1658-1732 | two passes over the file; a route gets a string exactly when its pattern is not parenthesized and has only literals and bound names for leaves; with every name declared once, a pattern that is a given string there in every world gets that string |
| `StaticStrings.RouteStringsExactly` | compiler/src/sloppyc.rs:1658-1732 | the string recorded for a route is the one the program computes there, in every world, exactly when a reading in program order that forgets would have recorded it too |
| `StaticStrings.SettledNamesAreRight` | compiler/src/sloppyc.rs:1658-1732 | a route all of whose names have before it, for certain, the string recorded for the file is right |
| `StaticStrings.NamedRouteExactly` | compiler/src/sloppyc.rs:1658-1732 | for a route that is one name, if and only if |
| `StaticStrings.DeclaredOnceExactly` | compiler/src/sloppyc.rs:1658-1732 | with every name declared once, a route is right exactly when each of its names was declared before it with an initializer that is certain there, and is `const` or no statement since may run other code |
| `StaticStrings.ConstantsExactly` | compiler/src/sloppyc.rs:1658-1732 | with `const` only, exactly when its names are declared before it |
| `StaticStrings.CodeBeforeTheRoute` | compiler/src/sloppyc.rs:2952-2982 | after an initializer that is not looked into a route with a `const` is right and one with a `let` is not |
| `StaticStrings.AssignedInAnInitializer` | compiler/src/sloppyc.rs:2146-2148 | an initializer that assigns the name gives the program another string than the one recorded |
| `StaticStrings.RouteGetsALaterString` | compiler/src/sloppyc.rs:1658-1732 | a route between two declarations of its name gets the string of the later one |
| `StaticStrings.RouteBeforeItsDeclaration` | compiler/src/sloppyc.rs:1658-1732 | a route before the only declaration of its name gets its string, which the program does not have yet |
| `StaticStrings.LaterStatementsChangeNothing` | compiler/src/static_eval.rs:12-20 | later declarations of new names change no string already read |
| `StaticStrings.RedeclaredNamesGoStale` | compiler/src/sloppyc.rs:2146-2148 | a name declared again with another value keeps its old string in the compiler |
| `StaticStrings.BareRedeclarationIsHarmless` | compiler/src/sloppyc.rs:2143-2148 | a name declared again without a value keeps it in both |

## Left out

- The wrapper around an erased handler, its binding descriptors and source-map offsets (`wrapper_source`): they assemble text and would only add easy members.
- The parser and code generator libraries, file access, canonical paths, extension probing and native-addon detection: not part of this model.
- Diagnostics and violation texts: a violation is its rule and position, an error its kind.
- Plan sections other than handlers, routes, dispatch, effects, capabilities and completeness; the OpenAPI and dependency-graph validators: flat copying.
- Captured parameter values, the handler cache, the Allow header and URL generation.
- The libuv backend and its threads: the completion protocol is modelled for the owner thread and the deterministic backend.
- Stores that fill arena memory and ring slots in builds with assertions.
- `TypeErasure.ExecutableSource`: a `this` parameter followed by others and an optional `?` keep the punctuation around them in both the edited text and the reference, because only their own spans are cut.
- `ProbeTable.Slot`: masking by a power of two less one is written as a remainder.
- `RouteDispatch.BuildBuckets`: the pass that counts bucket members and the pass that fills them are one.
- `RouteOrder.SortSorts`: `qsort` is an insertion sort with the same comparison; the result of sorting by a total order does not depend on the algorithm.
- `Slrt.Emit`: sums of 32-bit sizes are taken not to overflow 64-bit sizes, so the overflow branches of emitter and readers have no counterpart.
- `ModuleGraph.Recorder.AddNodeBuiltin`: a finding is the specifier it is about; the default resolver profiles and conditions are not recorded, and module ids are given in their normalized form.
- `AsyncQueue.Backend.Callback`: what callbacks do to the loop is a finite script, so callbacks that never return are not covered.
- `SourcePositions.SourceFrame`: without its first two rows, the path with the position and an empty margin, which copy their arguments.
- `StaticStrings.CertainExactly`: code that is not looked into, reading a name that is not yet declared included, is arbitrary; exceptions are not modelled, so the result is about routes the program reaches.
- `Resolver.ResolvedStaysInside`: the test that the canonical path lies under the canonical root, which also catches a backslash that leads out, is file access.
- `Resolver.FindAncestor`: the directory test is a parameter.
