# BlackBull in Dafny

A Dafny model of the stateful parts of BlackBull, a Python ASGI framework, with proofs of what they
promise. `dafny verify dfyconfig.toml` checks everything; nothing here runs the framework.

| file | what it models |
|---|---|
| `Options.dfy` | values that may be absent |
| `Paths.dfy` | splitting and joining paths, the segment list of a path, the canonical-path shortcut |
| `Templates.dfy` | how the trie reads a template segment: literal, parameter, wildcard, converter |
| `Routes.dfy` | registered routes as data; the linear scan that defines the right answer; the depth-first walk |
| `RouteTrie.dfy` | the routing trie on the heap: in-place insertion, dictionary probe, iterative and recursive look-up |
| `LookupCache.dfy` | the bounded look-up cache with its refresh-only-when-full order |
| `Placeholders.dfy` | the router's placeholder pattern and what registration and URL building do with it |
| `Router.dfy` | registration, resolution over trie and regex table, the cache in front, whole runs |
| `UrlPaths.dfy` | `url_path_for` and the round trip back through routing |
| `UrlReading.dfy` | exactly which templates can be read back from their URLs |
| `WrittenTemplates.dfy` | templates as they are written, and what their routes, refusals and URLs mean |
| `BatchLog.dfy` | the batching log handler as a transition system over all interleavings |
| `WebSocket.dfy` | the WebSocket object, the shared handshake flags and the handshake middleware |
| `JsonCoerce.dfy` | JSON to dataclass coercion and the serialisation it undoes |
| `Varint.dfy` | the protobuf varint codec of the gRPC benchmark service |
| `Depends.dfy` | per-request dependency injection inside an exit stack |
| `Headers.dfy` | the indexed header multimap and the index-free header view |
| `Responses.dfy` | native responses, ASGI dictionaries, the two conversions and streamed bodies |
| `Events.dfy` | the event dispatcher, the generation-keyed verdicts, draining observer tasks |

## Main results

* **Routing.** Three look-up mechanisms over a mutable trie answer exactly what one pass over the
  registration list answers: `RouteTries.RouteTrie.Lookup`, resting on `Routes.WalkIsScan`. Every turn of
  the iterative walk visits a node not visited before, so there are at most as many turns as nodes.
* **Templates.** From the pieces a template is written with, each with its name and converter, one reads
  off exactly which requests its route serves and with which parameters, why it is refused, and its URL:
  `WrittenTemplates.RouteMeaning`, `WrittenTemplates.RefusalMeaning`, `WrittenTemplates.UrlMeaning`.
* **Caching.** Over any run of registrations, refused registrations, look-ups and cache retunings, the
  cached router gives the replies of bare tables: `Routers.Run`. The tables hold exactly the accepted
  registrations of the run: `Routers.RunTables`. What the cache itself keeps and evicts over any history
  is read off that history: `LookupCaches.Run`.
* **Resolution.** The best string route answers, else the first serving regex route with its groups, else a
  405 whose methods are exactly the union over all matching routes, without the requested one:
  `Routers.ResolutionMeaning`.
* **URLs.** If every segment of a template is one placeholder or plain text, the texts fill their segments
  and the converters undo them, the URL of the named route is served by that route with exactly those
  parameters: `UrlPaths.UrlRoundTrip`. For any template at all, `UrlReading.UrlComesBack` says exactly when
  its own route reads the parameters back.
* **Logging.** Over every interleaving nothing is lost, reordered or waited for twice, no wake-up is
  lost, every record emitted before `close` is written within five flusher moves, and `close` ends the
  flusher within three: `BatchLog.ReachableIsSafe`, `BatchLog.RecordsReachTheStream`,
  `BatchLog.CloseEndsTheFlusher`.
* **WebSockets.** Over every run of calls the messages form a legal conversation, the handshake offer is
  taken at most once, and iteration yields what the peer sent before it left, text as text and bytes as
  bytes: `WebSockets.Drive`, `WebSockets.IterateSent`. With the handshake middleware, how it ends and the whole
  conversation are functions of the handler's calls and the peer's events: `WebSockets.Middleware`.
* **JSON.** Coercion undoes serialisation, accepts exactly the documents that fit the annotation, and gives
  values of the annotated shape: `JsonCoerce.JsonRoundTrip`, `JsonCoerce.CoerceAccepts`,
  `JsonCoerce.CoerceShapes`.
* **Events.** Over any history of registrations, questions and emits, an emit reaches exactly the handlers
  registered before it, in order: `Events.RunOps`. Under every schedule of registrations, emits, task ends
  and callbacks, `drain` answers True exactly when every task ever started is finished, and cancels
  nothing: `Events.EventDispatcher.Drain`.
* **Headers.** Every look-up is right if and only if every pair is indexed under its lower-case name:
  `Headers.AnswersRight`.
* **Responses.** Going to ASGI and back through the adapter is the identity on every sequence of native
  messages, and keeps what dictionaries say iff none announces more trailers:
  `Responses.NativeComesBack`, `Responses.DictsComeBack`.

## How the source is read

* Handlers are numbers and a resolved handler is the pair of handler and parameters, not a closure.
  Converters are an arbitrary total function into an optional value; a raw regex is an arbitrary
  function from path to optional named groups.
* The trie's heap shape is described by a ghost map from shapes (lists of trie steps) to nodes, and its
  contents by a ghost log of registrations. Every node's entries are the log filtered by its shape.
* An absent key of an ASGI dictionary is `None` in the model. The source reads headers and bodies that
  hold `None` like absent ones; a status or flag that holds `None`, and keys the framework does not read,
  are not modelled.
* `result |= bits << shift` is modelled with an explicit bitwise or on unbounded naturals.
* The condition variable of the log handler has one waiter, so `notify` wakes the flusher if it is
  parked and is lost otherwise. Writes succeed.
* The WebSocket receive channel is a finite list of event dictionaries; a call that would wait for one
  more ends as `Blocked`. Under the handshake middleware a handler is a list of calls, which goes on when
  one of them raises, and a flag whether it ends by raising itself.
* The event loop is an arbitrary finite schedule of steps; a `drain` that outlasts it is still waiting.
* A class table stands for the resolved type hints of dataclasses.

Where code and text disagree, the model follows the code:

* Re-registering a shape does not replace the first entry: the earliest accepting entry wins
  (`blackbull/app.py:1145` says otherwise).
* Trie look-up is not bounded by the path depth (`blackbull/router.py:105`) but by the number of nodes
  (`RouteTries.RouteTrie.MoreVisitsThanSegments`).
* `close()` on the log handler guarantees the records emitted before it. Those emitted after the flusher's
  last turn under the lock are never written (`BatchLog.LeftAfterLastTurn`, `BatchLog.LateRecordStays`).
* `url_path_for` and the trie read a template differently: the one finds placeholders anywhere, the other
  takes whole segments (`UrlReading.EmbeddedPlaceholderLost`, `UrlReading.TwoPlaceholdersMisread`).
* A header stored with an upper-case name by `from_lowered` is not invisible: it is found under exactly
  that spelling, and missed under every other (`Headers.OwnSpellingOnly`).
* The method token pattern also accepts one trailing newline, because `$` matches before it
  (`Routers.MethodTokenExact`).
* The close that the handshake middleware sends can follow a disconnect that the handler has seen, because
  `close()` does not mark the connection then. `WebSockets.LateClose` is exactly when;
  `WebSockets.LateCloseHappens` gives inputs.

## Model

| member | source | states |
|---|---|---|
| `Paths.JoinSplit` | blackbull/router.py:117 | joining with slashes undoes splitting |
| `Paths.SplitJoin` | blackbull/router.py:117 | splitting undoes joining, for parts without slashes |
| `Paths.SegmentsClean` | blackbull/router.py:117 | segments are non-empty and slash-free |
| `Paths.SegmentsOfNormalised` | blackbull/router.py:155-158 | the normalised key of a static route has the route's segments |
| `Paths.CanonicalSegments` | blackbull/router.py:176-185 | on a canonical path, stepping over the leading empty piece gives the filtered segments |
| `Templates.SpecsMatchCaptures` | blackbull/router.py:121-155 | every template has as many parameter specs as a walk down its shape collects captures |
| `Templates.NoSpecsMeansStatic` | blackbull/router.py:156-158 | a template without specs has an all-literal shape |
| `Templates.WildcardsMarked` | blackbull/router.py:127-147 | exactly the specs of the `path` converter are marked as wildcards |
| `Routes.PickIsBest` | blackbull/router.py:188-194 | the scan picks the serving route that beats all others: static before parameter before wildcard at the first difference, then the earliest |
| `Routes.BestUnique` | blackbull/router.py:188-194 | there is at most one such route |
| `Routes.FirstAnswerIsEarliest` | blackbull/router.py:244-265 | among entries of one shape the first registered accepting one answers |
| `Routes.WalkCorrect` | blackbull/router.py:267-315 | from any node the walk finds the best route below it, or the exact set of methods offered below it |
| `Routes.WalkIsScan` | blackbull/router.py:267-315 | the depth-first walk and the linear scan give the same handler, parameters and allowed methods |
| `Routes.MissExcludesMethod` | blackbull/router.py:267-282 | a miss never offers the requested method |
| `RouteTries.RouteTrie.Grow` | blackbull/router.py:140-153 | a new node hangs at its shape and the whole trie invariant is kept |
| `RouteTries.RouteTrie.Place` | blackbull/router.py:117-153 | the segment loop reaches the template's node with its specs, or stops at a misplaced wildcard leaving only entry-less nodes |
| `RouteTries.RouteTrie.Append` | blackbull/router.py:155 | the entry is appended to the node of exactly its shape |
| `RouteTries.RouteTrie.IndexStatic` | blackbull/router.py:156-158 | a static path is indexed under its raw and normalised form, at the all-literal node |
| `RouteTries.RouteTrie.Insert` | blackbull/router.py:116-158 | accepts exactly the templates with the wildcard last, adding one registration, whose meaning `WrittenTemplates.RouteMeaning` states; a refused one adds none |
| `RouteTries.RouteTrie.BindCaptures` | blackbull/router.py:253-263 | converts the captures in order, or rejects the entry |
| `RouteTries.RouteTrie.MatchEntries` | blackbull/router.py:244-265 | the first entry whose method, scheme and converters accept |
| `RouteTries.RouteTrie.MatchTerminal` | blackbull/router.py:269-282 | the same hit with the checks in another order, or the methods of every fitting entry |
| `RouteTries.RouteTrie.LookupFrom` | blackbull/router.py:267-315 | the recursive look-up computes the walk |
| `RouteTries.RouteTrie.Probe` | blackbull/router.py:166-174 | the dictionary probe only answers what the walk answers |
| `RouteTries.StaticFirst` | blackbull/router.py:166-174 | an answering all-literal route is what the walk finds first |
| `RouteTries.RouteTrie.Descent` | blackbull/router.py:205-237 | goes on to the most specific child worth trying and pushes the others, least specific first |
| `RouteTries.RouteTrie.Visit` | blackbull/router.py:201-237 | at the end of the path matches the entries, otherwise descends |
| `RouteTries.RouteTrie.Turn` | blackbull/router.py:200-240 | one turn visits a node not visited before and, resuming the last pushed branch at a dead end, keeps the answer and the branches apart |
| `RouteTries.RouteTrie.WorkPop` | blackbull/router.py:211-240 | the pending branches keep the answer and lead to no visited node |
| `RouteTries.RouteTrie.WalkLoop` | blackbull/router.py:188-240 | the iterative walk has the recursive walk's hit and visits no node twice, the one that answers included |
| `RouteTries.RouteTrie.MoreVisitsThanSegments` | blackbull/router.py:205-240 | two routes for which a path of one segment takes three visits |
| `RouteTries.RouteTrie.Lookup` | blackbull/router.py:160-242 | look-up answers what a scan of the registrations answers, for every path |
| `LookupCaches.LookupCache.constructor` | blackbull/router.py:1563-1565 | an empty cache with the given bound |
| `LookupCaches.LookupCache.Get` | blackbull/router.py:1567-1575 | returns the stored result; a hit moves to the back exactly when the cache is full |
| `LookupCaches.LookupCache.Set` | blackbull/router.py:1577-1585 | stores nothing for a bound of zero or less; otherwise a full cache first drops its front, and a new key goes to the back |
| `LookupCaches.LookupCache.Clear` | blackbull/router.py:1587-1588 | empties the store and keeps the bound |
| `LookupCaches.LookupCache.SetMax` | blackbull/router.py:1636-1638 | changes the bound and nothing stored |
| `LookupCaches.FrontIsOldest` | blackbull/router.py:1583-1584 | the front of the order, and no other entry, is the one whose latest insertion or hit-while-full is oldest |
| `LookupCaches.Run` | blackbull/router.py:1563-1588 | over every history of calls the cache answers and holds what the history says: eviction of the oldest by latest insertion or hit-while-full, never more entries than the largest bound since the last clear |
| `Routers.ResolutionMeaning` | blackbull/router.py:1771-1820 | found iff some route serves, and then the handler and parameters of the best string route, or else of the first serving regex route with its groups; otherwise 405 with exactly the offered methods iff there are any, never the requested one; otherwise 404 |
| `Routers.Router.ResolveKey` | blackbull/router.py:1761-1820 | trie first, then regex table, then the two errors, as the bare tables resolve |
| `Routers.Router.ScanRegexes` | blackbull/router.py:1796-1814 | the first regex route that matches with the method, or all offered methods |
| `Routers.Router.Get` | blackbull/router.py:1728-1750 | the cached answer is the answer of the current tables |
| `Routers.MethodTokenExact` | blackbull/router.py:1424 | the pattern accepts exactly the tokens and tokens with one newline after them |
| `Routers.TokenChars` | blackbull/router.py:1423-1424 | the token characters are the visible ASCII characters that are no delimiters |
| `Routers.Router.SetItem` | blackbull/router.py:1645-1725 | the reason of refusal in source order; a refused registration changes no table |
| `Routers.PutKnown` | blackbull/router.py:1720-1721 | a regex route with a known key replaces that entry where it stands, and no other |
| `Routers.PutNew` | blackbull/router.py:1720-1721 | one with a new key goes to the end |
| `Routers.Router.SetCacheMax` | blackbull/router.py:1636-1638 | retuning keeps every cached answer right |
| `Routers.Router.Freeze` | blackbull/router.py:2098 | freezing changes no answer |
| `Routers.Run` | blackbull/router.py:1645-1750 | over any run of operations the cached router replies like the bare tables |
| `Routers.RunTables` | blackbull/router.py:1645-1725 | after any run the tables hold exactly the string routes accepted before a freeze, in order, and for each key of an accepted regex route its latest handler, once |
| `UrlPaths.PlaceholderReadAlike` | blackbull/router.py:122-126 | on a whole placeholder the pattern and the trie read the same name and converter |
| `UrlPaths.UrlSegments` | blackbull/router.py:1988-2000 | the segments of the URL are what the template's segments contribute |
| `UrlPaths.UrlMatches` | blackbull/router.py:1988-2000 | the URL matches the template's shape and captures the parameter texts in order |
| `UrlPaths.UrlRoundTrip` | blackbull/router.py:1988-2000 | routing the URL: the named route serves it with exactly those parameters, and is chosen unless another beats it |
| `UrlReading.MatchesItself` | blackbull/router.py:121-153 | for suitable texts a template matches its own URL iff no segment has a placeholder without being a parameter, and then with these captures |
| `UrlReading.UrlComesBack` | blackbull/router.py:1988-2000 | for suitable texts the parameters come back exactly iff the template is readable: no embedded placeholder, the last parameter segment of each name one placeholder, every placeholder a parameter |
| `UrlReading.ReadableIsWhole` | blackbull/router.py:121-126 | with each parameter name used once, readable means that every segment is one placeholder or plain text |
| `UrlReading.EmbeddedPlaceholder` | blackbull/router.py:121-139 | a segment that is no parameter matches its own URL iff it has no placeholder |
| `UrlReading.EmbeddedPlaceholderLost` | blackbull/router.py:121-139 | `a{x}` with the text `1` gives `a1`, which its route does not match |
| `UrlReading.TwoPlaceholdersMisread` | blackbull/router.py:121-126 | `{a}-{b}` matches its URL `1-2` as one parameter with another name |
| `WrittenTemplates.RouteMeaning` | blackbull/router.py:116-155 | the route of a template written with any pieces serves a request iff method and scheme are listed and the path reads as the pieces, each parameter through its own converter; the parameters are the ones read |
| `WrittenTemplates.OneParameter` | blackbull/router.py:52-57 | `/{n:int}` serves exactly the one-segment paths that `int` accepts, with that value; likewise the other converters and the short form, and `path` takes the whole rest |
| `WrittenTemplates.RefusalMeaning` | blackbull/router.py:1645-1725 | frozen, then a method that is no token, then a path of another type; a template for an unknown converter, then for a metacharacter outside its placeholders, then for a wildcard that is not last, and for nothing else |
| `WrittenTemplates.UrlMeaning` | blackbull/router.py:1988-2000 | the URL is the pieces with the texts in them; otherwise an unknown route, or exactly the names without a text |
| `WrittenTemplates.MatchShape` | blackbull/router.py:1604 | what the placeholder pattern matches is a braced identifier, or two with a colon between them |
| `WrittenTemplates.Identifiers` | blackbull/router.py:1604 | an identifier is word characters that do not start with a digit |
| `WrittenTemplates.WordChars` | blackbull/router.py:1604 | the word characters by their ASCII codes |
| `BatchLog.BatchTextIsLines` | blackbull/logger.py:219-228 | one batch text is every record followed by a newline |
| `BatchLog.StepConserves` | blackbull/logger.py:186-232 | written, in flight and buffered records together are the appended ones in order |
| `BatchLog.StepKeepsInv` | blackbull/logger.py:186-241 | every step keeps conservation, no lost wake-up, coverage at close and at most one timed wait per record |
| `BatchLog.ReachableIsSafe` | blackbull/logger.py:186-241 | every reachable state is safe and its history is the run's emits and close |
| `BatchLog.ExitLeavesOnlyLateRecords` | blackbull/logger.py:205-217 | at flusher exit the stream holds every record from before close, and the buffer only later ones |
| `BatchLog.LeftAfterLastTurn` | blackbull/logger.py:205-217 | what is left is exactly the records emitted after the flusher's last turn under the lock |
| `BatchLog.LateRecordStays` | blackbull/logger.py:205-217 | a run that leaves a record behind |
| `BatchLog.RecordsReachTheStream` | blackbull/logger.py:200-217 | within five flusher moves every record emitted before close is written, whatever interleaves, and until then the flusher can move |
| `BatchLog.CloseEndsTheFlusher` | blackbull/logger.py:234-240 | after close the flusher can always move and exits within three moves |
| `WebSockets.UnbrokenShape` | blackbull/websocket.py:338-446 | the protocol automaton accepts exactly accept-sends-close, a lone close, or nothing, in both directions |
| `WebSockets.WebSocket.constructor` | blackbull/websocket.py:196-215 | the object adopts the marks of middleware, whatever they are |
| `WebSockets.WebSocket.ConsumeConnect` | blackbull/websocket.py:294-336 | takes the offer at most once; a message in its place is an error |
| `WebSockets.WebSocket.AcceptCall` | blackbull/websocket.py:338-382 | sends one accept exactly when the handshake is open, and says how it fails otherwise |
| `WebSockets.WebSocket.CloseCall` | blackbull/websocket.py:384-411 | sends at most one close, none after the peer left |
| `WebSockets.WebSocket.SendCall` | blackbull/websocket.py:415-434 | sends only between accept and close or disconnect |
| `WebSockets.WebSocket.ReceiveCall` | blackbull/websocket.py:466-517 | the next message, skipping other events; a disconnect is recorded with its code (1005 if it has none) and raised for ever after |
| `WebSockets.Iterate` | blackbull/websocket.py:552-558 | yields exactly the messages before the first disconnect, in order |
| `WebSockets.SentIsRead` | blackbull/websocket.py:496-511 | what the peer sent before it left is what there is to read: text as text, bytes as bytes, and the empty text for a frame with neither |
| `WebSockets.IterateSent` | blackbull/websocket.py:552-558 | iterating yields exactly what the peer sent before it left, in order |
| `WebSockets.Drive` | blackbull/websocket.py:196-517 | over every run of calls the conversation is legal, the offer is taken at most once, and nothing follows close or an observed disconnect |
| `WebSockets.Converse` | blackbull/websocket.py:384-517 | on an accepted connection, what is sent, whether the handler waits for ever and whether it sees the peer leave, all read off its calls and the events to come |
| `WebSockets.Middleware` | blackbull/middleware/websocket.py:26-47 | how it ends (no offer, waiting, handler raised, handler returned) and the exact conversation; it closes after an observed disconnect iff `LateClose` holds of the inputs |
| `WebSockets.ReturnedShape` | blackbull/middleware/websocket.py:39-47 | a handler that returns leaves one accept, sends and exactly one close |
| `WebSockets.LateCloseHappens` | blackbull/middleware/websocket.py:45-47 | the late close happens, also when the handler called `close()` after the disconnect, and not when it did before |
| `JsonCoerce.JsonableWires` | blackbull/router.py:451-465 | every value can be serialised and arrives as its JSON form |
| `JsonCoerce.JsonableFree` | blackbull/router.py:451-465 | what is handed to the serialiser holds no instance, and no tuple unless one stood in an instance |
| `JsonCoerce.CoerceJsonOf` | blackbull/router.py:473-560 | coercing the JSON form of a well-typed value gives the value |
| `JsonCoerce.JsonRoundTrip` | blackbull/router.py:451-560 | serialising and coercing a well-typed value gives it back, for self-referential classes too |
| `JsonCoerce.CoerceKeepsData` | blackbull/router.py:473-560 | an accepted document comes back unchanged but for this: a field of a dataclass that it leaves out has its default |
| `JsonCoerce.CoerceAccepts` | blackbull/router.py:473-560 | a document is accepted iff it fits the annotation: no unknown key, every present field fitting its own annotation, every absent field with a default, null anywhere |
| `JsonCoerce.CoerceShapes` | blackbull/router.py:473-560 | what an accepted document becomes has the annotated shape all the way down: instances of the class with all its fields, lists, tuples and dictionaries where they are annotated |
| `JsonCoerce.EmptyObject` | blackbull/router.py:473-560 | a class with one field accepts the empty object iff the field has a default, which it then holds |
| `Varint.BitOrAbove` | bench/httparena/grpc_bench.py:50 | or-ing in bits above the result adds them |
| `Varint.ReadVarint` | bench/httparena/grpc_bench.py:42-54 | the loop reads the varint's value and the index after it |
| `Varint.WriteVarint` | bench/httparena/grpc_bench.py:57-71 | the loop writes the varint of the 64-bit pattern |
| `Varint.NegativeNeverEnds` | bench/httparena/grpc_bench.py:57-71 | below -2^64 the loop variable stays negative, so the loop never ends |
| `Varint.ReadEncoded` | bench/httparena/grpc_bench.py:42-71 | reading a written varint before any suffix gives the number and stops at its end |
| `Varint.TenBytes` | bench/httparena/grpc_bench.py:57-71 | a 64-bit pattern takes at most ten bytes |
| `Varint.FieldStepWritten` | bench/httparena/grpc_bench.py:108-129 | one turn of the field loop reads any written field, whatever follows: the value of a varint, nothing of other wire types, up to its end |
| `Varint.FieldsWritten` | bench/httparena/grpc_bench.py:102-130 | decoding a message of any fields gives its varint fields in order |
| `Varint.DecodeStreamRequest` | bench/httparena/grpc_bench.py:102-130 | each component is the last value of its field, or 0 |
| `Varint.DecodeSumRequest` | bench/httparena/grpc_bench.py:74-99 | the last values of fields 1 and 2, each at least -2^63 on any bytes |
| `Varint.LastOfBound` | bench/httparena/grpc_bench.py:84-85 | every decoded value is at least -2^63 |
| `Varint.EncodeSumReply` | bench/httparena/grpc_bench.py:133-135 | at most eleven bytes for a 64-bit result, decoded to it iff it fits 64 signed bits |
| `Varint.GetSum` | bench/httparena/grpc_bench.py:138-141 | answers every request with the reply for the sum, which is at least -2^64 |
| `Varint.StreamSum` | bench/httparena/grpc_bench.py:144-155 | exactly `count` replies, the i-th for the sum plus i |
| `Varint.ReplyRoundTrip` | bench/httparena/grpc_bench.py:74-135 | a reply decodes to its result iff the result fits 64 signed bits |
| `Varint.ReplyWraps` | bench/httparena/grpc_bench.py:57-85 | 2^63 comes back as -2^63 |
| `Varint.RequestRoundTrip` | bench/httparena/grpc_bench.py:74-99 | any two signed 64-bit operands decode as sent |
| `Depends.Request.Resolve` | blackbull/di.py:182-199 | a cached parameter shares the first instance; otherwise the provider is invoked and a generator is pushed |
| `Depends.Request.Unwind` | blackbull/router.py:1284-1291 | leaving the stack releases in reverse order |
| `Depends.Request.Handle` | blackbull/router.py:1284-1291 | for every plan and outcome each acquired instance is released once (the releases are distinct), in reverse, after any response |
| `Depends.AcquiredCount` | blackbull/di.py:91-103 | acquisitions number the distinct cached generator providers plus the uncached generator parameters |
| `Depends.SourcesShare` | blackbull/di.py:99-103 | two parameters get one instance iff both are cached and of one provider; a parameter has its own unless an earlier one shares it |
| `Depends.HealthyIff` | blackbull/di.py:182-199 | resolution succeeds iff no provider that is invoked fails |
| `Headers.Headers.constructor` | blackbull/headers.py:49-53 | every pair is indexed under its lower-cased name |
| `Headers.Headers.FromLowered` | blackbull/headers.py:55-81 | every pair is indexed under its name as it is, which is in lower case iff all names are |
| `Headers.AnswersRight` | blackbull/headers.py:115-141 | every look-up is answered case-insensitively iff every pair is indexed under its lower-case name |
| `Headers.OwnSpellingOnly` | blackbull/headers.py:55-81 | a name that `from_lowered` got with an upper-case letter is found under exactly that spelling |
| `Headers.UpperCaseMissed` | blackbull/headers.py:55-81 | `X` stored so is not found as `x` |
| `Headers.Headers.GetList` | blackbull/headers.py:125-130 | for every object, the pairs indexed under the name as given or else in lower case; all fields of the name in any case when the index is by lower-case names |
| `Headers.Headers.Get` | blackbull/headers.py:132-141 | the first value of that answer or the default |
| `Headers.Headers.Contains` | blackbull/headers.py:115-116 | whether that answer is not empty |
| `Headers.Headers.Append` | blackbull/headers.py:143-157 | appends in order, indexed under lower-case names, and leaves the other pairs as they were indexed |
| `Headers.Headers.Plus` | blackbull/headers.py:159-161 | concatenation with a right index |
| `Headers.ViewGetList` | blackbull/native.py:61-64 | the view gives the same fields without an index |
| `Headers.ViewGet` | blackbull/native.py:54-59 | the view gives the same first value |
| `Headers.LowerSame` | blackbull/headers.py:115-141 | two names look up alike iff they are equal up to the case of A to Z |
| `Headers.FieldsAre` | blackbull/headers.py:125-130 | the fields of a name are the pairs at exactly the positions whose name is equal up to case, in order |
| `Responses.ToAsgi` | blackbull/native.py:319-350 | the events are in wire order, at most one of a kind, and a server learns from them exactly what the message says |
| `Responses.DictsComeBack` | blackbull/response.py:386-406 | any dictionaries leave the boundary one for one with defaults filled in; they say the same as before iff none announces more trailers |
| `Responses.ContinuationLost` | blackbull/response.py:401-403 | a trailers event that announces another one loses the announcement |
| `Responses.NativeComesBack` | blackbull/app.py:76-83 | for any native messages, expanding, adapting and expanding again gives the same events |
| `Responses.AdaptTwice` | blackbull/response.py:370-410 | nesting the adapter changes nothing |
| `Responses.WholeIsStartAndBody` | blackbull/response.py:377-383 | a whole response leaves as the start and body dictionaries a handler could have sent |
| `Responses.Stream` | blackbull/response.py:206-216 | one start, one event per non-empty chunk in order, then one end; no bytes are lost and only the last event ends the response; a content type is put in front iff there is none |
| `Responses.WithTypeMeaning` | blackbull/response.py:206-209 | the headers stay as they are if one is named `content-type` in any case; otherwise one is put in front |
| `Responses.NonEmptyParts` | blackbull/response.py:211-215 | each chunk by itself, in order: an empty one is dropped, any other is kept |
| `Events.EventDispatcher.On` | blackbull/event.py:82-98 | adds to one list, bumps the generation, and keeps the name index exact |
| `Events.EventDispatcher.Intercept` | blackbull/event.py:100-104 | likewise for interceptors |
| `Events.AddedLists` | blackbull/event.py:82-104 | a registration goes to the end of the list of its name and leaves every other list |
| `Events.EventDispatcher.Emit` | blackbull/event.py:118-141 | interceptors until the first that raises; then all blocking observers; then a task per observer, tracked from its start |
| `Events.EventAggregator.HasListeners` | blackbull/event_aggregator.py:125-168 | the cached verdict is the current one |
| `Events.RunOps` | blackbull/event_aggregator.py:125-168 | over any history a question is answered by the registrations before it, and an emit reaches exactly the handlers registered before it, each in its way and in order, and starts a tracked task per detached observer |
| `Events.EventDispatcher.Wait` | blackbull/event.py:179 | resumes only when the snapshot is finished or the time is up; meanwhile only the schedule changes the tasks |
| `Events.EventDispatcher.Drain` | blackbull/event.py:149-179 | under every schedule, registrations included: True iff every task any emit started is finished, at the first wake-up that finds it so; False only when the time is up; nothing changes but by the schedule |
| `Events.NothingTracked` | blackbull/event.py:171-174 | no tracked task is unfinished iff no started task is |
| `Events.FollowKeeps` | blackbull/event.py:149-154 | tasks stay started and finished, and only a task that finishes becomes finished: nothing is cancelled |
| `Events.OneSnapshotIsNotEnough` | blackbull/event.py:159-163 | when the tasks of one snapshot are finished, a task one of them started may still run |

## Left out

- The HTTP/1.1 and HTTP/2 server stack, HPACK, MQTT, the gRPC bridge, structured fields, and the cache,
  compression, CORS and static middleware.
- Server-sent events, cookies, redirects, and native WebSocket messages at the external boundary.
- Application start-up, configuration, the command line, workers, OpenAPI and error pages.
- Signature inspection, type-hint resolution and source inspection: their results are taken as data.
- Regular-expression matching, apart from the router's own placeholder and token patterns.
- Route names: a duplicate name is refused after the route is already in the trie, so that refusal is not
  among those that change nothing.
- Multi-branch unions, heterogeneous tuples and bare containers in coercion.
- The native receive channel of the WebSocket object, failing sends, and calls from several tasks.
- Failing stream writes and the join timeout of the log handler.
- UrlPaths.UrlRoundTrip: covers templates whose segments are each one placeholder or plain text, and
  texts without empty segments; for other templates `UrlReading.UrlComesBack` says exactly when it holds,
  with converters that keep the text and texts without an opening brace.
- Varint.WriteVarint: requires a value of at least -2^64, because the source's loop does not end below it
  (`Varint.NegativeNeverEnds`).
- `aclose` of the dispatcher; and an emit is one step, although its interceptors and blocking observers
  may suspend it.
