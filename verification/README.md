# bsrvcore: routing, sessions, streaming, cookies and client runs

A Dafny model of the parts of bsrvcore whose correctness spans many calls, with proofs about every
input, every run or every reachable state:

- **Routes** (`Text`, `RouteTarget`, `RouteTree`, `RouteLaws`, `RouteMountLaws`, `RouteHistory`,
  `RouteOthers`, `RouteMeaning`, `RouteWitness`;
  linked layers in `RouteLayer`, `RouteMerge`, `RouteMoveMerge`, `RouteMount`, `RouteClone`,
  `RouteTeardown`; the table object in `RouteTable`). A table is a forest: one tree per method, a
  node per position, a position being the path of literal and parameter edges from a root. The
  object code updates linked `Layer` objects; every method is proved against the forest view, and
  the laws are proved about the forest.
- **Sessions** (`SessionHeap`, `SessionStore`, `SessionLeases`, `SessionMap`). A map and a lazily cleaned binary
  heap, and the runs of the operations on them.
- **Server-sent events** (`SseParser`, `SseRoundTrip`, `SseLines`, `SseTask`, `SseStart`, `SseEnds`,
  `SseLoss`, `SseClientTask`). The line
  parser, its inverse printer, and the runs of the client task.
- **Cookies** (`CookieRules`, `CookieParse`, `CookieJar`, `CookieAttributes`, `CookieHeader`,
  `RequestAssembler`). The client's jar over whole runs, the header it writes and what the server reads from that header.
- **Barrier and multipart** (`Barrier`, `Multipart`, `MultipartReader`, `MultipartBuild`). The callback barrier under
  every interleaving, and the form body built on it.
- **HTTP client run** (`ClientRun`, `ClientEnds`, `ClientTask`). The task as a step machine with one operation in
  flight.

Clock readings, network completions, user callbacks and the results of file reads are inputs of
the step they belong to. A locked section is one step. Requests to the route table are the decoded
path segments of the target, or `None` for a target the URL parser rejects.

Some promises are false of the code as written. For each of them there is an exact condition, and an
input or run outside it:

- A request instance of a registered target does not always reach it: it does if and only if no literal
  sibling or exclusive node is in the way (`RouteLaws.RegisterThenMatch`; fails in
  `RouteWitness.ObstructedInstance`).
- Parameter names and captured values line up if and only if the target has no anonymous `{}` parameter
  (`RouteHistory.RegistrationAlignment`; fails in `RouteWitness.AnonymousParameter`) and the mount
  prefix is literal (`RouteHistory.MountAlignment`; fails in `RouteWitness.ParametricPrefix`).
- A comment in the mount code says that a rejected mount leaves the destination untouched. It leaves
  blank prefix nodes behind; a request keeps its result if and only if it enters none of them or had
  the default result anyway (`RouteMountLaws.RejectedMountFrame`; fails in
  `RouteWitness.RejectedMountChangesRouting`).
- `GetSession` stores the context it returns if and only if the id was absent or live
  (`SessionStore.GetStoresResult`; fails in `SessionStore.ExpiredGetForgets`). Otherwise no later call
  returns that context again (`SessionStore.NeverReturnedAgain`).
- Events survive printing and parsing if and only if no data starts with a newline
  (`SseRoundTrip.RoundTripExact`; fails in `SseRoundTrip.LeadingNewlineDropped`).
- The header promises every `Start` of an SSE task its callback exactly once. A `Start` is answered if and
  only if the start is decided at it or later with no other `Start` in between
  (`SseStart.StartAnsweredIff`; fails in `SseStart.FirstStartLost`).
- Text read by a `Next` with an empty callback reaches nobody. The callbacks hear the whole emitted body if
  and only if no text was lost (`SseTask.PullProtocol`), and text is lost if and only if an accepted
  `Next` without a callback is completed by a successful read with new text (`SseLoss.LostIff`; lost in
  `SseLoss.LosingRun`).
- A finished HTTP task gives its stream back if and only if it has a done hook (`ClientRun.RunShape`; not
  given back in `ClientRun.UnhookedRun`). No factory of the library sets one.
- A multipart frame reads back as its part if and only if name, file name and content type hold no line end
  (`MultipartReader.FrameReadIff`; fails in `MultipartReader.LineEndInName`), and a body is cut into
  its parts if and only if no frame contains the dash-boundary (`Multipart.BuiltBodyCutsIff`; fails in
  `Multipart.BoundaryInValue`).

## Model

| member | source | states |
|---|---|---|
| `RouteTarget.SplitTargetSegments` | src/route/include/internal/http_route_table_detail.h:40-58 | the loop yields the non-empty pieces between slashes of the part before the query, none holding a slash |
| `RouteTarget.ExtractParamNames` | src/route/http_route_table_match.cc:189-199 | the loop collects the names of the parameter segments in order, anonymous ones left out |
| `RouteTarget.NamesPerWild` | src/route/http_route_table_match.cc:189-199 | a target has at most one name per parameter edge, and exactly one if and only if no parameter is `{}` |
| `RouteTarget.TemplateSegments` | src/route/http_route_table_match.cc:201-206 | normalising a target into a template keeps its segments and drops the query |
| `RouteTarget.JoinTemplateSegments` | src/route/http_route_table_mount.cc:39-54 | the joined template has the prefix's segments followed by the route's, is absolute and has no query |
| `RouteTarget.PatternBalances` | src/route/impl/http_route_target_validator.cc:25-49 | every target the pattern accepts has balanced braces, so the counting pass never rejects |
| `RouteTarget.UngraftOfGraft` | src/route/http_route_table_mount.cc:232-256 | moving a position under a prefix is injective, keeps the method bucket and adds the prefix's depth |
| `RouteTree.WalkCaptures` | src/route/http_route_table_match.cc:150-181 | a walk ends below its start having captured exactly one segment per parameter edge taken, early stops included |
| `RouteTree.ParametersZip` | src/route/http_route_table_match.cc:208-223 | the parameter map binds each name to the value at its first position and binds nothing else |
| `RouteLaws.WalkAlong` | src/route/http_route_table_match.cc:150-181 | an unobstructed instance of a target followed by more segments reaches the target's node with the right captures and goes on from there |
| `RouteLaws.WalkAstray` | src/route/http_route_table_match.cc:150-181 | an obstructed instance never ends at the target's node |
| `RouteLaws.RegisterThenMatch` | src/route/http_route_table_registry.cc:41-112 | after a registration a request instance is routed to its node if and only if no literal sibling or exclusive node is in the way |
| `RouteLaws.RegisterFrame` | src/route/http_route_table_registry.cc:78-112 | a registration rewrites one node, keeps every other node and adds only blank ones on the target's path |
| `RouteLaws.RegisteredResult` | src/route/http_route_table_match.cc:50-104 | the complete result of a request for a fresh route: handler, template, parameters, limits over defaults, aspects in order table, method, subtree, terminal |
| `RouteLaws.CapturedPerName` | src/route/http_route_table_match.cc:208-223 | a target without anonymous parameters captures exactly one value per name |
| `RouteMountLaws.LosslessMerge` | src/route/http_route_table_mount.cc:75-162 | a merge that passed the check has exactly the positions of both trees, unshared nodes unchanged, and at shared positions the only owner's behaviour, names and template, both aspect lists in order, either exclusive flag |
| `RouteMountLaws.MountedWellFormed` | src/route/http_route_table_mount.cc:227-277 | a mounted forest is again a forest with all ancestors and method roots |
| `RouteMountLaws.MountPreservesRouting` | src/route/http_route_table_mount.cc:227-277 | for any prefix, a request that reaches the mount node is routed as its rest is in the source: same match, handler and limits, joined template, aspects of the destination first |
| `RouteMountLaws.LiteralMountRouting` | src/route/http_route_table_mount.cc:227-277 | for a literal prefix, prefix ++ rest matches if and only if the source matches rest, with the same handler and parameters, the joined template and location, own limits over the destination's defaults, and the destination's aspects first |
| `RouteMountLaws.RejectedMountFrame` | src/route/http_route_table_mount.cc:258-268 | what a rejected mount leaves: old nodes unchanged, only blank prefix nodes added, and a request keeps its result if and only if it enters none of them or had the default result |
| `RouteMountLaws.GrownResult` | src/route/http_route_table_match.cc:150-181 | adding blank nodes gives exactly the requests that enter one the default result |
| `RouteOthers.RegisterOthers` | src/route/http_route_table_registry.cc:41-222 | after any accepted registration a request that does not pass its node keeps its result if and only if it enters no added blank node or was unmatched |
| `RouteOthers.RouteOthers` | src/route/http_route_table_registry.cc:41-57 | after an accepted route registration the same holds of every request that does not end at its node |
| `RouteOthers.MountOthers` | src/route/http_route_table_mount.cc:227-277 | after an accepted mount the same holds of every request that does not pass the mount position |
| `RouteHistory.FirstConflict` | src/route/http_route_table_mount.cc:258-268 | the first method whose trees conflict, all earlier ones mergeable |
| `RouteHistory.TemplatesLeadToTheirNode` | src/route/http_route_table_mount.cc:39-73 | in every table built by any nesting of registrations and mounts, each handler's template leads back to its own node |
| `RouteHistory.RegistrationAlignment` | src/route/http_route_table_registry.cc:78-112 | a registered handler has one name per parameter edge if and only if its target names every parameter |
| `RouteHistory.MountAlignment` | src/route/http_route_table_mount.cc:107-113 | a mounted aligned handler stays aligned if and only if the prefix has no parameter |
| `RouteHistory.ParametersAligned` | src/route/http_route_table_registry.cc:78-112 | in every table built from named targets and literal prefixes all handlers are aligned |
| `RouteHistory.ParametersComplete` | src/route/http_route_table_match.cc:208-223 | in such a table every match binds name i to the i-th capture, first of equal names winning, nothing truncated, also at an exclusive stop |
| `RouteHistory.RejectedMountShadows` | src/route/http_route_table_mount.cc:258-268 | a mount at a word served by a root parameter route, rejected for that or a later method, turns that request into the default result |
| `RouteWitness.RejectedMountChangesRouting` | src/route/http_route_table_mount.cc:258-268 | a table and a source made by registrations, and a rejected mount after which a request of another method is routed differently |
| `RouteWitness.ObstructedInstance` | src/route/http_route_table_match.cc:157-163 | a table in which an instance of a registered target goes to a literal sibling |
| `RouteWitness.AnonymousParameter` | src/route/http_route_table_match.cc:189-199 | a valid target whose handler captures a value without a name |
| `RouteWitness.ParametricPrefix` | src/route/http_route_table_mount.cc:235-240 | a valid parametric prefix under which an aligned handler loses its alignment |
| `RouteLayer.AttachThenChild` | src/route/http_route_table_layer.cc:51-99 | what a setter attaches along an edge is what the getter finds there; every other child and the contents stay |
| `RouteLayer.ChildLinked` | src/route/http_route_table_layer.cc:51-82 | layers that form a forest still do after a new child is attached |
| `RouteLayer.StepInto` | src/route/http_route_table_registry.cc:82-104 | the child along an edge, made blank if missing; the forest grows by at most that position |
| `RouteLayer.GetOrCreate` | src/route/http_route_table_registry.cc:78-105 | the walk returns the layer of the target's position and grows the forest by exactly the blank nodes missing on the way |
| `RouteLayer.Rewrite` | src/route/http_route_table_layer.cc:28-49 | setters change the contents of one node of the forest and no link |
| `RouteLayer.RegisterAt` | src/route/http_route_table_registry.cc:41-222 | every registration is the value-level registration of the forest |
| `RouteMerge.CanMergeLayer` | src/route/http_route_table_mount.cc:75-105 | true if and only if no position below has behaviour in both trees |
| `RouteMerge.CanMergeChild` | src/route/http_route_table_mount.cc:84-102 | the same along one edge, true when a child is missing on either side |
| `RouteMerge.NoConflictSplit` | src/route/http_route_table_mount.cc:75-105 | a conflict below a position is one at it or one below a child both trees have |
| `RouteMerge.PrefixRouteTemplates` | src/route/http_route_table_mount.cc:56-73 | joins the prefix to the template of every node with behaviour below, and changes nothing else |
| `RouteMoveMerge.MoveMergeLayer` | src/route/http_route_table_mount.cc:107-162 | exactly the destination layers met by source positions change, each to its merged state, by relinking in place |
| `RouteMoveMerge.MergeChild` | src/route/http_route_table_mount.cc:138-160 | along one edge: merge both children, or take over the source's child, or do nothing |
| `RouteMoveMerge.TakeChild` | src/route/http_route_table_mount.cc:138-157 | takes over the source's child where the destination has none, and changes nothing else |
| `RouteMount.CheckBucket` | src/route/http_route_table_mount.cc:260-267 | one method of the first pass: source templates prefixed, mount position made, conflict decided |
| `RouteMount.CheckMount` | src/route/http_route_table_mount.cc:258-268 | the first pass accepts if and only if no method conflicts, and otherwise leaves the prefix nodes up to the first conflict |
| `RouteMount.CheckDecides` | src/route/http_route_table_mount.cc:258-268 | checking the grown and prefixed trees decides the original ones |
| `RouteMount.Locate` | src/route/http_route_table_mount.cc:232-256 | the second walk finds the mount layer of the method |
| `RouteMount.MergeAll` | src/route/http_route_table_mount.cc:270-277 | after the second pass the destination's layers form the merged forest |
| `RouteMount.MergedView` | src/route/http_route_table_mount.cc:107-162 | the merged layers hold exactly the value-level merge |
| `RouteClone.CloneHandlers` | src/route/http_route_table_mount.cc:186-204 | copies a handler list if and only if all of it is cloneable |
| `RouteClone.CloneNode` | src/route/http_route_table_mount.cc:166-204 | copies a node's contents if and only if its handler and aspects are cloneable |
| `RouteClone.CloneLayer` | src/route/http_route_table_mount.cc:164-225 | succeeds if and only if everything below is cloneable, and then yields a fresh, properly linked tree with the same contents |
| `RouteClone.CloneAll` | src/route/http_route_table_mount.cc:285-292 | clones all methods: a fresh forest equal to the source, or failure if and only if something is not cloneable |
| `RouteTeardown.CollectChildLayers` | src/route/http_route_table_registry.cc:247-262 | moves every child of a layer onto the stack once |
| `RouteTeardown.ReleaseTop` | src/route/http_route_table_registry.cc:274-281 | replacing the top of the stack by its children keeps every unreleased position below exactly one pending one |
| `RouteTeardown.ReleaseLayer` | src/route/http_route_table_registry.cc:274-281 | one turn releases one new layer and keeps the accounting |
| `RouteTeardown.DestroyLayerTree` | src/route/http_route_table_registry.cc:264-282 | terminates for every tree and releases every layer exactly once |
| `RouteTable.HttpRouteTable.constructor` | src/route/http_route_table_registry.cc:240-245 | blank roots of its own, one per method, and the default limits |
| `RouteTable.HttpRouteTable.BuiltTable` | src/route/http_route_table_registry.cc:78-112 | whatever operations made the object, templates lead to their nodes, and names line up when all targets are named and all prefixes literal |
| `RouteTable.HttpRouteTable.Register` | src/route/http_route_table_registry.cc:41-222 | accepted if and only if method and target are valid; then the value-level registration, else no change; old layers stay at their positions and new ones are fresh |
| `RouteTable.HttpRouteTable.MatchSegments` | src/route/http_route_table_match.cc:133-187 | the loop computes the walk: success, leaf, captures, location and the layers passed |
| `RouteTable.HttpRouteTable.BuildParameterMap` | src/route/http_route_table_match.cc:208-223 | the loop zips names and values, first of equal names winning |
| `RouteTable.HttpRouteTable.CollectAspects` | src/route/http_route_table_match.cc:225-269 | table, method, root-to-leaf subtree and terminal aspects in that order |
| `RouteTable.HttpRouteTable.RouteRequest` | src/route/http_route_table_match.cc:50-131 | the result defined by the walk over the forest, for every method and request, rejected targets included |
| `RouteTable.HttpRouteTable.MountAt` | src/route/http_route_table_mount.cc:227-277 | accepted if and only if the prefix is valid and no method conflicts; the forest afterwards in every case; the table owns its old layers, some of the source's and fresh ones |
| `RouteTable.HttpRouteTable.MountCloneAt` | src/route/http_route_table_mount.cc:279-295 | as mounting by move but only if everything is cloneable; the source may be the table itself, and another source keeps its contents; the table owns its old layers and fresh ones |
| `RouteTable.MountLayers` | src/route/http_route_table_mount.cc:258-277 | both passes: decision, forest, kept positions and where the layers come from |
| `RouteTable.CloneAndMount` | src/route/http_route_table_mount.cc:279-295 | the same for a deep copy, taken before anything changes |
| `RouteMeaning.TerminalIff` | src/route/http_route_table_match.cc:271-276 | a node defines behaviour if and only if its handler, terminal aspects, body limit, read expiry or write expiry differs from a blank node's |
| `RouteMeaning.RejectedIffClash` | src/route/http_route_table_mount.cc:75-105 | a mount is rejected if and only if some position has such a field set in both trees |
| `RouteMeaning.AspectsMountEverywhere` | src/route/http_route_table_mount.cc:75-105 | a source built from subtree aspects only mounts at every valid prefix of every table, its aspects behind those already there |
| `RouteMeaning.MaxBodyTakes` | src/route/http_route_table_registry.cc:206-222 | a body limit set at a served target is the limit of its requests, zero meaning the table default again; everything else in the result is unchanged |
| `RouteMeaning.ReadExpiryTakes` | src/route/http_route_table_registry.cc:188-204 | likewise for the read expiry, the other two limits unchanged |
| `RouteMeaning.WriteExpiryTakes` | src/route/http_route_table_registry.cc:170-186 | likewise for the write expiry, the other two limits unchanged |
| `RouteMeaning.NullHandlerIgnored` | src/route/http_route_table_registry.cc:41-57 | registering a null handler at a served target keeps its handler, aspects and limits |
| `RouteMeaning.TerminalAspectLast` | src/route/http_route_table_registry.cc:132-148 | a terminal aspect added to a served target is called last, and nothing else in the result changes |
| `RouteMeaning.AspectBeforeTerminals` | src/route/http_route_table_registry.cc:114-130 | a subtree aspect added at a served target comes after all subtree aspects and right before the target's terminal aspects |
| `RouteMeaning.AncestorAspectsFirst` | src/route/http_route_table_match.cc:225-269 | the subtree aspects of an ancestor are a prefix of those of its descendants |
| `RouteMeaning.ExclusiveStops` | src/route/http_route_table_registry.cc:59-76 | an exclusive route answers every longer request for which it has no literal child, under its own template |
| `RouteMeaning.RouteDoesNotStop` | src/route/http_route_table_registry.cc:41-57 | an ordinary route on a childless node that was not exclusive does not match longer requests |
| `RouteMeaning.UnmatchedResult` | src/route/http_route_table_match.cc:106-131 | every request that reaches no handler gets the default handler, the root location and template, no parameters, the global aspects only and the table's limits |
| `RouteMeaning.EmptySegmentsSkipped` | src/route/http_route_table_match.cc:150-181 | an empty request segment anywhere makes no difference to the walk |
| `RouteMeaning.LiteralTargetIff` | src/route/impl/http_route_target_validator.cc:19-65 | a target without braces is valid if and only if it is absolute, at most 2048 long, of printable characters other than nine, and has no two dots in a row |
| `RouteMeaning.NameIff` | src/route/impl/http_route_target_validator.cc:27-29 | the characters of a parameter name are the target characters without punctuation other than hyphen and underscore |
| `RouteMeaning.TemplateText` | src/route/http_route_table_match.cc:201-206 | the template of a target is its text before the query, or a slash |
| `RouteMeaning.JoinTemplateText` | src/route/http_route_table_mount.cc:39-54 | a joined template is the prefix without its final slash followed by the route, and a bare slash on either side adds nothing |
| `SessionHeap.TopIsEarliest` | src/session/include_exported/bsrvcore/internal/session/detail/heap.h:128-137 | in an ordered heap no entry is earlier than the first |
| `SessionHeap.Heap.Top` | src/session/include_exported/bsrvcore/internal/session/detail/heap.h:134-137 | an entry with the least expiry |
| `SessionHeap.Heap.Push` | src/session/include_exported/bsrvcore/internal/session/detail/heap.h:48-73 | sifting up adds exactly the entry and keeps the order |
| `SessionHeap.Heap.Pop` | src/session/include_exported/bsrvcore/internal/session/detail/heap.h:81-126 | sifting down removes exactly one entry of least expiry and keeps the order |
| `SessionStore.NextCovers` | src/session/session_map.cc:35-74 | every operation keeps a heap entry with the exact expiry for every session |
| `SessionStore.RunCovers` | src/session/session_map.cc:35-247 | hence so does every run, however many stale entries there are |
| `SessionStore.ThoroughCleanExact` | src/session/session_map_cleaner.cc:64-82 | a thorough clean-up leaves exactly the sessions whose lease has not ended |
| `SessionStore.NextKeeps` | src/session/session_map_cleaner.cc:35-62 | no operation but its removal touches a session before its lease ends, and its lease never shortens |
| `SessionStore.SessionStable` | src/session/session_map.cc:44-71 | along any run a session keeps its context while its lease lasts and it is not removed, and every get returns it |
| `SessionStore.ReturnedAgain` | src/session/session_map.cc:44-71 | a context handed out for an absent or live id is returned by every later get within its lease |
| `SessionStore.NeverReturnedAgain` | src/session/session_map.cc:59-69 | a context handed out over a leftover expired entry is never returned again by any get |
| `SessionStore.RunContexts` | src/session/session_map.cc:35-247 | along every run stored contexts stay distinct and a context stored nowhere stays so |
| `SessionStore.GetStoresResult` | src/session/session_map.cc:44-69 | a get stores the context it returns if and only if the id was absent or live |
| `SessionStore.ExpiredGetForgets` | src/session/session_map.cc:59-69 | a run from the empty store in which two gets of one id, a millisecond apart, return different contexts |
| `SessionLeases.RemovedIsGone` | src/session/session_map.cc:113-132 | in every run a removed id is gone, every other session whose lease lasts stays as it is, and no later get returns the removed context |
| `SessionLeases.GetLengthens` | src/session/session_map.cc:44-58 | a get of a live session returns its context and sets its lease to the later of the old one and now plus the default timeout |
| `SessionLeases.GetCreates` | src/session/session_map.cc:59-69 | a get of an absent id makes a new context leased for the default timeout, for a second at least |
| `SessionLeases.GetOfExpired` | src/session/session_map.cc:59-69 | a get of an expired id that is still stored returns a new context and keeps the old entry |
| `SessionLeases.SetTimeoutLengthens` | src/session/session_map.cc:217-247 | setting a timeout leases the session, new or not, until the later of its lease and now plus the timeout, a second at least |
| `SessionLeases.TimeoutInForce` | src/session/session_map.cc:213-215 | in every run the default timeout in force is the last one set |
| `SessionLeases.CreatedLease` | src/session/session_map.cc:59-69 | so every created session is leased for the last default set, two hours if none was |
| `SessionLeases.BackgroundExact` | src/session/session_map.cc:192-196 | a background clean-up of a heap eight times the map leaves, in every run, exactly the sessions whose lease lasts |
| `SessionLeases.BackgroundBounded` | src/session/session_map_cleaner.cc:35-62 | a smaller one takes at most eight entries, at least one if one expired and the heap is more than twice the map, and none otherwise |
| `SessionMap.SessionMap.constructor` | src/session/include_exported/bsrvcore/internal/session/session_map.h:130-145 | an empty store with the default timeout and a heap of its own |
| `SessionMap.SessionMap.PopEarliest` | src/session/session_map_cleaner.cc:45-55 | pops an expired earliest entry and drops its session if the entry is not stale, or reports that none is expired |
| `SessionMap.SessionMap.DropTop` | src/session/session_map_cleaner.cc:47-52 | removes one entry of least expiry and exactly the session with that id and expiry |
| `SessionMap.SessionMap.ShortClean` | src/session/session_map_cleaner.cc:35-62 | pops at most eight expired entries, earliest first, only when over half the heap is stale |
| `SessionMap.SessionMap.ThoroughClean` | src/session/session_map_cleaner.cc:64-82 | pops every expired entry |
| `SessionMap.SessionMap.GetSession` | src/session/session_map.cc:35-74 | a get step of the store, invariant kept |
| `SessionMap.SessionMap.RemoveSession` | src/session/session_map.cc:113-132 | a remove step; reports whether the id had an entry |
| `SessionMap.SessionMap.SetSessionTimeout` | src/session/session_map.cc:217-247 | lengthens or creates the session, never shortens |
| `SessionMap.SessionMap.SetDefaultSessionTimeout` | src/session/session_map.cc:213-215 | changes the default timeout only |
| `SessionMap.SessionMap.BackgroundClean` | src/session/session_map.cc:171-207 | short or thorough clean-up by the eightfold rule |
| `SseParser.ParseInTwo` | src/connection/client/sse_event_parser.cc:36-69 | feeding a stream in two pieces cut anywhere equals feeding it whole, state and events |
| `SseParser.ChunkingInvariant` | src/connection/client/sse_event_parser.cc:36-69 | the same for every cutting into any number of chunks |
| `SseParser.SseEventParser.Feed` | src/connection/client/sse_event_parser.cc:36-69 | the loop over a growing buffer is the parse of the whole text; the kept rest has no newline |
| `SseParser.SseEventParser.Reset` | src/connection/client/sse_event_parser.cc:71-75 | back to the initial state |
| `SseRoundTrip.FieldConsumed` | src/connection/client/sse_event_parser.cc:77-102 | a printed field line is consumed as exactly that field and value |
| `SseRoundTrip.RetryParses` | src/connection/client/sse_event_parser.cc:138-148 | printed retry values in int range parse to themselves |
| `SseRoundTrip.AppendedSplit` | src/connection/client/sse_event_parser.cc:114-122 | appending the lines of some data gives that data without its leading empty lines |
| `SseRoundTrip.PrintedEvent` | src/connection/client/sse_event_parser.cc:77-149 | a printed event parses to itself up to leading empty data lines, and parsing goes on afresh |
| `SseRoundTrip.RoundTrip` | src/connection/client/sse_event_parser.cc:77-149 | a printed list of events parses to that list, each without leading empty data lines |
| `SseRoundTrip.RoundTripExact` | src/connection/client/sse_event_parser.cc:114-122 | the list comes back unchanged if and only if no data starts with a newline |
| `SseRoundTrip.LeadingNewlineDropped` | src/connection/client/sse_event_parser.cc:116-121 | a printable event that does not come back |
| `SseLines.CrlfIsLf` | src/connection/client/sse_event_parser.cc:53-57 | a line ended by CRLF parses like the line ended by LF, in every state and before every continuation |
| `SseLines.CrlfStream` | src/connection/client/sse_event_parser.cc:46-61 | a whole stream with CRLF line ends parses like the stream with LF line ends |
| `SseLines.RoundTripCrlf` | src/connection/client/sse_event_parser.cc:46-149 | events printed with CRLF line ends parse back to the same list |
| `SseLines.CommentSkipped` | src/connection/client/sse_event_parser.cc:87-90 | a line that starts with a colon changes nothing |
| `SseLines.BlankSkipped` | src/connection/client/sse_event_parser.cc:104-112 | a blank line without a field before it emits nothing |
| `SseLines.UnknownFieldSkipped` | src/connection/client/sse_event_parser.cc:114-149 | a field with another name than the four known ones changes nothing |
| `SseLines.FieldsTakeEffect` | src/connection/client/sse_event_parser.cc:114-136 | id and event replace, data is appended on a new line |
| `SseLines.SpaceOptional` | src/connection/client/sse_event_parser.cc:92-99 | a value without a space after the colon reads like one with it |
| `SseLines.ColonOptional` | src/connection/client/sse_event_parser.cc:92-99 | a line without a colon is a field with an empty value |
| `SseLines.RetryIff` | src/connection/client/sse_event_parser.cc:138-148 | a decimal number is a retry delay if and only if it is at most the largest int; with a minus sign only zero is |
| `SseLines.RetryRejects` | src/connection/client/sse_event_parser.cc:138-148 | a value that is empty or has any other character is no retry delay |
| `SseLines.RetryTakesEffect` | src/connection/client/sse_event_parser.cc:138-148 | a retry line sets such a delay and changes nothing otherwise |
| `SseTask.PullProtocol` | src/connection/client/http_sse_client_task_stream.cc:47-159 | after every run each `Next` with a callback was answered exactly once or is the one outstanding, outstanding exactly while a chunk read is in flight; the chunks taken are the body up to the emitted length; the callbacks heard exactly that if and only if no text answered an empty callback |
| `SseTask.HeardIff` | src/connection/client/http_sse_client_task_startup.cc:139-149 | what was heard is all that was taken if and only if no text answered an empty callback, and less otherwise |
| `SseTask.HeardEvents` | src/connection/client/http_sse_client_task_stream.cc:100-152 | if nothing was lost, feeding what the callbacks heard to the parser gives the events of the emitted body prefix |
| `SseLoss.LostIff` | src/connection/client/http_sse_client_task_stream.cc:47-152 | in every run text is lost if and only if an accepted `Next` without a callback is completed by a successful read that brings text |
| `SseLoss.ListenersLoseNothing` | src/connection/client/http_sse_client_task_stream.cc:47-72 | in a run whose every `Next` has a callback no text is lost |
| `SseLoss.LosingRun` | src/connection/client/http_sse_client_task_startup.cc:139-149 | a run whose text nobody hears |
| `SseTask.DoneIsFinal` | src/connection/client/http_sse_client_task_stream.cc:154-159 | a finished stream stays finished, delivers nothing more and keeps its ending |
| `SseTask.CancellationReported` | src/connection/client/http_sse_client_task_stream.cc:100-159 | a stream asked to cancel never ends as a failure, and one neither asked nor aborted never as cancelled |
| `SseEnds.EndingExact` | src/connection/client/http_sse_client_task_startup.cc:289-357 | in every run phase and ending are a function of the steps: open from an accepted header to the first failing, aborted, ended or complete read, cancelled if aborted or a cancellation came before, else failed or at the end |
| `SseEnds.DeliveredExact` | src/connection/client/http_sse_client_task_stream.cc:100-152 | in every run the body is the text read in order and the amount handed out is its length at the last successful read |
| `SseEnds.NextAnswered` | src/connection/client/http_sse_client_task_stream.cc:47-72 | a `Next` outside streaming is not permitted, one while another is outstanding is refused, any other waits |
| `SseEnds.ChunkAnswered` | src/connection/client/http_sse_client_task_stream.cc:100-152 | a read answers the outstanding `Next` with all text not handed out yet, marked last if the message is complete, or with the ending |
| `SseStart.StartAnsweredIff` | src/connection/client/http_sse_client_task_startup.cc:151-347 | in every run a `Start` with a callback is answered if and only if the start is decided at it or later with no other `Start` in between; at most one is answered, with success exactly when the deciding step opened the stream |
| `SseStart.StepAnswers` | src/connection/client/http_sse_client_task_startup.cc:289-347 | only the step that decides the start answers, and it answers the callback stored then |
| `SseStart.LateStartUnanswered` | src/connection/client/http_sse_client_task_startup.cc:151-165 | a `Start` made when the stream is open or done is never answered |
| `SseStart.FirstStartLost` | src/connection/client/http_sse_client_task_startup.cc:151-165 | a run of two `Start` calls in which the first callback is never run |
| `SseClientTask.RunPromises` | src/connection/client/http_sse_client_task_stream.cc:47-159 | after every run the object keeps the pull protocol, the events heard, at most one answered `Start` and a fitting ending |
| `SseClientTask.HttpSseClientTask.Start` | src/connection/client/http_sse_client_task_startup.cc:151-185 | the object's history grows by the start step, its state is that of the run, and the run promises hold |
| `SseClientTask.HttpSseClientTask.Next` | src/connection/client/http_sse_client_task_stream.cc:47-72 | the object's history grows by the next step, its state is that of the run, and the run promises hold |
| `SseClientTask.HttpSseClientTask.Cancel` | src/connection/client/http_sse_client_task_startup.cc:349-357 | the object's history grows by the cancel step, its state is that of the run, and the run promises hold |
| `SseClientTask.HttpSseClientTask.AcquireComplete` | src/connection/client/http_sse_client_task_startup.cc:207-227 | the object's history grows by the acquire completion step, its state is that of the run, and the run promises hold |
| `SseClientTask.HttpSseClientTask.WriteComplete` | src/connection/client/http_sse_client_task_startup.cc:257-287 | the object's history grows by the write completion step, its state is that of the run, and the run promises hold |
| `SseClientTask.HttpSseClientTask.HeaderComplete` | src/connection/client/http_sse_client_task_startup.cc:289-323 | the object's history grows by the header completion step, its state is that of the run, and the run promises hold |
| `SseClientTask.HttpSseClientTask.ChunkComplete` | src/connection/client/http_sse_client_task_stream.cc:100-152 | the object's history grows by the chunk completion step, its state is that of the run, and the run promises hold |
| `CookieRules.DomainMatchIff` | src/connection/client/request_assembler.cc:270-283 | a host matches a domain if and only if it is the domain or a name below it |
| `CookieRules.DomainMatchTransitive` | src/connection/client/request_assembler.cc:270-283 | domain matching is transitive |
| `CookieRules.PathMatchIsStandard` | src/connection/client/request_assembler.cc:285-303 | on absolute request paths the path test is that of section 5.1.4 of RFC 6265; otherwise only the root cookie path matches |
| `CookieRules.DefaultPathMatches` | src/connection/client/request_assembler.cc:255-268 | the default path is absolute and matches the request it came from |
| `CookieRules.TrimShape` | src/connection/client/request_assembler.cc:45-53 | trimming leaves no white space at either end and invents no character |
| `CookieParse.SplitSetCookieTokens` | src/connection/client/request_assembler.cc:78-92 | the loop yields the trimmed pieces between semicolons |
| `CookieParse.ParseSetCookieValue` | src/connection/client/request_assembler.cc:472-529 | the attribute loop with early rejection computes the value-level reading of the header |
| `CookieParse.AcceptedShape` | src/connection/client/request_assembler.cc:407-529 | every accepted cookie has a non-empty name and a name and value fit for a header, a domain its setter matches, and an absolute path |
| `CookieParse.PastMeansEmpty` | src/connection/client/request_assembler.cc:449-470 | a cookie whose lifetime is over when read has an empty value |
| `CookieParse.DefaultPathTaken` | src/connection/client/request_assembler.cc:502-521 | without a Path attribute the cookie gets the default path |
| `CookieAttributes.RefusedIff` | src/connection/client/request_assembler.cc:472-521 | a Set-Cookie value is refused if and only if it has no name or some Domain attribute is empty or neither the host nor a parent of it |
| `CookieAttributes.ScopeRead` | src/connection/client/request_assembler.cc:407-447 | the last Domain and the last absolute Path decide, any Secure counts, in any letter case; without them the cookie is host-only, in the request's directory, not secure |
| `CookieAttributes.LifetimeRead` | src/connection/client/request_assembler.cc:449-470 | the last Max-Age decides if it is a number, then the last Expires if it is a date, otherwise there is no expiry; a lifetime that is over empties the value |
| `CookieAttributes.PiecesRoundTrip` | src/connection/client/request_assembler.cc:78-92 | pieces joined by a semicolon and a space are read back as the pieces |
| `CookieAttributes.AttributeRoundTrip` | src/connection/client/request_assembler.cc:69-76 | key and value joined by an equals sign are read back; a bare key has no value |
| `CookieAttributes.TrimExact` | src/connection/client/request_assembler.cc:45-53 | trimming removes the white space around a text and nothing else |
| `CookieAttributes.LowerExact` | src/connection/client/request_assembler.cc:238-245 | lower-casing changes exactly the letters A to Z |
| `CookieAttributes.LeadingDotIgnored` | src/connection/client/request_assembler.cc:247-253 | one leading dot of a Domain attribute is ignored |
| `CookieAttributes.DefaultPathExact` | src/connection/client/request_assembler.cc:255-268 | the default path is the request path before its last slash, the root if that is empty, whatever the query |
| `CookieJar.NextContents` | src/connection/client/request_assembler.cc:381-403 | a step keeps one cookie per key, and holds exactly what the event puts and what it does not drop |
| `CookieJar.JarContents` | src/connection/client/request_assembler.cc:203-236 | after every run the jar holds one cookie per key, and a cookie is in it if and only if some event put it and no later one dropped it |
| `CookieJar.ReachableCookies` | src/connection/client/request_assembler.cc:472-529 | every cookie ever stored is clean and in a scope its setter was entitled to |
| `CookieJar.ExpiredHeaderRemoves` | src/connection/client/request_assembler.cc:392-400 | a Set-Cookie whose lifetime is over leaves no cookie with its key |
| `CookieAttributes.MaxAgeOverRemoves` | src/connection/client/request_assembler.cc:449-456 | after any run, a header with a Max-Age of zero or less leaves no cookie of its name, domain and path |
| `CookieAttributes.PastExpiresRemoves` | src/connection/client/request_assembler.cc:461-468 | so does a header without a Max-Age number whose Expires is past |
| `CookieAttributes.MaxAgeStores` | src/connection/client/request_assembler.cc:457-459 | after any run, a header with a positive Max-Age has stored its value with that expiry, whatever its Expires says |
| `CookieAttributes.SessionCookieStored` | src/connection/client/request_assembler.cc:461-469 | a header with neither has stored its value without expiry |
| `CookieAttributes.OnlySameKeyReplaced` | src/connection/client/request_assembler.cc:531-545 | an accepted header replaces the cookie of its name, domain, host-only flag and path and no other live one |
| `CookieJar.PutIsAlive` | src/connection/client/request_assembler.cc:392-402 | a stored cookie was alive when read |
| `CookieJar.SentExactly` | src/connection/client/request_assembler.cc:305-361 | a request carries exactly the unexpired surviving cookies whose secure, domain and path tests pass |
| `CookieJar.SentIff` | src/connection/client/request_assembler.cc:330-361 | the sending rule spelled out: expiry not reached, https if secure, the host is the domain or, unless host-only, below it, and the path is the root, the request path or a prefix of it ending at a slash |
| `CookieJar.SentBackIff` | src/connection/client/request_assembler.cc:330-361 | over https to the same host and target a live cookie is sent if and only if its path matches |
| `CookieJar.StoreThenSend` | src/connection/client/request_assembler.cc:184-201 | a live cookie stored without a Path attribute goes back on the next https request for the same host and target |
| `CookieJar.SentOnlyInDomain` | src/connection/client/request_assembler.cc:330-361 | a sent cookie's setter and receiver both lie in its domain, and are the same host for a host-only cookie; secure cookies only go over https |
| `CookieHeader.SortByPath` | src/connection/client/request_assembler.cc:320-325 | some permutation of the candidates with non-increasing path length |
| `CookieHeader.SerializeCookieCandidates` | src/connection/client/request_assembler.cc:363-379 | the loop writes the pairs separated by semicolon and space |
| `CookieHeader.GenerateCookiePairs` | src/connection/server/http_server_task_base.cc:167-185 | the server's loop keeps the last value of every name in the header |
| `CookieHeader.HeaderRoundTrip` | src/connection/include/internal/server/http_server_task_detail.h:186-234 | the server reads from a written header exactly the names and unquoted values written, in order |
| `CookieHeader.DequotedExact` | src/connection/include/internal/server/http_server_task_detail.h:186-206 | one pair of quotes around a value is dropped, and nothing else |
| `CookieHeader.TokenExact` | src/connection/include/internal/server/http_server_task_detail.h:186-206 | white space around names and values is dropped; a token without an equals sign is a name without value |
| `CookieHeader.ServerSeesJar` | src/connection/client/request_assembler.cc:363-379 | for every run and request, whatever order equal paths are written in, the server reads exactly the cookies due and keeps the last of each name |
| `RequestAssembler.SessionRequestAssembler.UpsertCookie` | src/connection/client/request_assembler.cc:531-545 | replaces the cookie with the same key in place, or appends |
| `RequestAssembler.SessionRequestAssembler.SyncSetCookie` | src/connection/client/request_assembler.cc:203-209 | a Set-Cookie event of the jar's history |
| `RequestAssembler.SessionRequestAssembler.ClearCookies` | src/connection/client/request_assembler.cc:211-214 | a clear event |
| `RequestAssembler.SessionRequestAssembler.CookieCount` | src/connection/client/request_assembler.cc:216-220 | the number of cookies left after a sweep |
| `RequestAssembler.SessionRequestAssembler.CollectMatchingCookies` | src/connection/client/request_assembler.cc:330-361 | the loop selects exactly the cookies that pass the three tests |
| `RequestAssembler.SessionRequestAssembler.MaybeInjectCookies` | src/connection/client/request_assembler.cc:184-201 | a request with its own Cookie header is left alone; otherwise the header lists exactly the cookies due, longer paths first, the server reads exactly them, and there is no header if and only if none is due |
| `Barrier.AsyncSameTypeWaiter.constructor` | include/bsrvcore/core/async_waiter.h:344-347 | all slots empty |
| `Barrier.AsyncSameTypeWaiter.OnReady` | include/bsrvcore/core/async_waiter.h:282-295 | sets or replaces the callback; the fires so far are what the history expects |
| `Barrier.AsyncSameTypeWaiter.Fulfill` | include/bsrvcore/core/async_waiter.h:298-315 | fills an empty slot, ignores repeats and unknown slots; the fires so far are what the history expects |
| `Barrier.AsyncSameTypeWaiter.TakeCompletion` | include/bsrvcore/core/async_waiter.h:349-362 | fires if and only if nothing is missing and a callback is set |
| `Barrier.FiresWhenComplete` | include/bsrvcore/core/async_waiter.h:282-315 | in every interleaving it has fired if and only if some point of the history had all slots filled and a callback set |
| `Barrier.FireValues` | include/bsrvcore/core/async_waiter.h:349-362 | a fire carries every slot's first value in slot order |
| `Barrier.Confluent` | include/bsrvcore/core/async_waiter.h:282-315 | histories with the same first values deliver the same vector, whatever the arrival order |
| `Multipart.QuoteRoundTrip` | src/connection/client/multipart_generator.cc:74-84 | an escaped parameter in quotes reads back as itself and never ends early |
| `Multipart.EscapeQuotedParameter` | src/connection/client/multipart_generator.cc:74-84 | the loop escapes quotes and backslashes |
| `MultipartReader.FrameReadIff` | src/connection/client/multipart_generator.cc:130-179 | a reader of header lines gets the part's name, file name, type and content back from its frame if and only if name, file name and type hold no line end |
| `MultipartReader.FrameFields` | src/connection/client/multipart_generator.cc:130-179 | the frame then reads as the name, the given file name, else the reader's, else `file`, the given type, else the binary type for files, and the file's bytes or the text |
| `MultipartReader.LineEndInName` | src/connection/client/multipart_generator.cc:74-84 | a part whose name the reader does not get back |
| `Multipart.BuildBody` | src/connection/client/multipart_generator.cc:126-195 | frames in part order between delimiters, or the failure of the first unreadable file |
| `Multipart.FramesPointwise` | src/connection/client/multipart_generator.cc:126-195 | the k-th frame is the k-th part's |
| `Multipart.AssembledExactly` | src/connection/client/multipart_generator.cc:126-195 | a build fails at the first file part without bytes, with the error of its read or else an input/output error, and is ready if there is none |
| `Multipart.CutRecoversFrames` | src/connection/client/multipart_generator.cc:126-195 | cutting a body at its delimiters gives back exactly the frames when none contains the dash-boundary |
| `Multipart.BuiltBodyCuts` | src/connection/client/multipart_generator.cc:126-195 | the same for the body built from any parts and files |
| `Multipart.BuiltBodyCutsIff` | src/connection/client/multipart_generator.cc:126-195 | the cut has one piece per part and two more if and only if no frame contains the dash-boundary, and more pieces otherwise |
| `Multipart.BoundaryInValue` | src/connection/client/multipart_generator.cc:171-179 | a text part whose value breaks the cut |
| `MultipartBuild.MultipartGenerator.AddFilePart` | src/connection/client/multipart_generator.cc:319-331 | appends a part numbered by the file parts before it |
| `MultipartBuild.MultipartGenerator.AddTextPart` | src/connection/client/multipart_generator.cc:333-343 | appends a text part |
| `MultipartBuild.MultipartGenerator.AsyncCreateTask` | src/connection/client/multipart_generator.cc:345-404 | refusal, creation error, immediate body without files, or a fresh build with nothing dispatched |
| `MultipartBuild.Build.Complete` | src/connection/client/multipart_generator.cc:119-124 | the first outcome is dispatched and no other |
| `MultipartBuild.Build.StartNext` | src/connection/client/multipart_generator.cc:387-401 | one turn of the loop that starts reads, with completions in between: an unreadable part is the first such, nothing was dispatched before, and its error is the only outcome; else the build goes on |
| `MultipartBuild.Build.ReadDone` | src/connection/client/multipart_generator.cc:374-383 | once every read has completed, in whatever order, exactly one outcome is dispatched and it is the body of each part's own bytes |
| `MultipartBuild.FiredWithOwn` | src/connection/client/multipart_generator.cc:374-401 | the barrier hands over every reader's own result in part order |
| `ClientRun.RunShape` | src/connection/client/http_client_task_flow.cc:134-461 | in every run the emissions are a prefix of Connected (Header Chunk*)? Done with at most one Done, a failed stage is followed only by an unsuccessful Done and success means no failed stage, one operation is in flight exactly while running, and the stream is given back once if and only if done with a hook |
| `ClientRun.SuccessIff` | src/connection/client/http_client_task_flow.cc:400-461 | a finished shape ends in success if and only if no stage failed |
| `ClientRun.UnhookedRun` | src/connection/client/http_client_task_flow.cc:426-433 | a finished run that gives no stream back |
| `ClientRun.ChunksMakeTheBody` | src/connection/client/http_client_task_flow.cc:268-379 | on success the chunks concatenate to the body after its header-time length, or there are none when the body was read at once |
| `ClientRun.UnfinishedStreamRereads` | src/connection/client/http_client_task_flow.cc:359-379 | any number of ends of stream before the parser is done leave the task where it was |
| `ClientRun.CancellationReported` | src/connection/client/http_client_task_flow.cc:385-434 | a task asked to cancel never ends as a failure, and one neither asked nor aborted never as cancelled |
| `ClientEnds.OutcomeExact` | src/connection/client/http_client_task_flow.cc:134-461 | in every run the outcome is a function of the steps: the first failing step cancels it if aborted or a cancellation came before and fails it otherwise, a complete body succeeds, and it never changes again |
| `ClientEnds.DeliveredExact` | src/connection/client/http_client_task_flow.cc:268-379 | in every run the body is the text read in order, and the chunk callback got exactly the non-empty texts of the successful partial reads |
| `ClientEnds.SuccessDelivers` | src/connection/client/http_client_task_flow.cc:436-461 | a completed run hands over the whole text and gives the stream back, open exactly when the connection may be kept |
| `ClientTask.RunPromises` | src/connection/client/http_client_task_flow.cc:134-461 | after every run the object keeps the shape, the chunks that make the body, the hook rule and a fitting outcome |
| `ClientTask.HttpClientTask.Start` | src/connection/client/http_client_task_flow.cc:134-159 | the object's history grows by the start step, its state is that of the run, and the run promises hold |
| `ClientTask.HttpClientTask.Cancel` | src/connection/client/http_client_task_flow.cc:385-392 | the object's history grows by the cancel step, its state is that of the run, and the run promises hold |
| `ClientTask.HttpClientTask.AcquireComplete` | src/connection/client/http_client_task_flow.cc:182-198 | the object's history grows by the acquire completion step, its state is that of the run, and the run promises hold |
| `ClientTask.HttpClientTask.WriteComplete` | src/connection/client/http_client_task_flow.cc:230-237 | the object's history grows by the write completion step, its state is that of the run, and the run promises hold |
| `ClientTask.HttpClientTask.HeaderComplete` | src/connection/client/http_client_task_flow.cc:268-296 | the object's history grows by the header completion step, its state is that of the run, and the run promises hold |
| `ClientTask.HttpClientTask.BodyComplete` | src/connection/client/http_client_task_flow.cc:323-331 | the object's history grows by the whole-body completion step, its state is that of the run, and the run promises hold |
| `ClientTask.HttpClientTask.ChunkComplete` | src/connection/client/http_client_task_flow.cc:359-379 | the object's history grows by the partial-read completion step, its state is that of the run, and the run promises hold |

## Left out

- URL parsing and percent-decoding of request targets (Boost.URL): requests start as decoded segments.
- A source table after it was mounted by move: it is consumed. A rejected mount has already joined the prefix to the source's templates, and mounting that source again would join it twice.
- Mounting a table into itself by move: the two tables of such a mount are distinct.
- Clones are identified with their originals by behaviour; object identity of cloned handlers is not modelled.
- Null handlers passed to `SetHandler` are a change that does nothing; allocation failures and exceptions are not modelled.
- Global aspects and default limits are fields of the table; their one-line setters are left out as easy members.
- Mutexes and memory orders: a locked section is one step.
- The session timer's scheduling, `ShrinkToFit`, and the rvalue overloads that repeat the same bodies.
- Session documentation speaks of a null result for a missing session; the code always makes one, and so does the model.
- SSE: carriage-return-only line ends and the last-event-id buffer of the WHATWG HTML Standard, which the parser does not implement.
- SSE and HTTP tasks: user callbacks, stream slots and sockets; completions arrive as steps with arbitrary results. Liveness, since it depends on the network.
- Cookie dates and numbers: the readers of Expires and Max-Age are parameters; clock arithmetic is unbounded.
- Cookie domains: section 5.1.3 of RFC 6265 refuses suffix matches for IP addresses; the code does not check this and neither does the model.
- CookieHeader.SortByPath: does not fix the order of equal path lengths, because the source's sort is not stable.
- Character case: ASCII lower-casing only.
- Multipart: the boundary, a fixed text with a counter, is a parameter, a posted build runs at once, and creation of the HTTP task from the body is not modelled.
- WebSocket tasks, stream builders, the proxy assembler, the server's accept loop and thread pool, the runner, the C binding, the allocator and the file layer.
