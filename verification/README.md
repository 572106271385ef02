# Verified model of the exact JSON engine, the continuation protocol and the projections around them

This project models the parts of the SDK that must not lose or change what a caller or a provider
said, and proves what they promise.

* **Exact JSON.** A provider response is parsed in one pass by an explicit-stack parser into a flat
  node table with source spans, an RFC 6901 pointer index, last-duplicate-wins objects and UTF-16
  strings that may hold lone surrogates. An explicit-stack writer prints a table again, with
  JavaScript key order, shallow field overlays, string overrides and a final well-formedness pass.
  `JsonGrammar` is the grammar of sections 2 to 7 of RFC 8259 as derivation trees, `JsonDescent` a
  recursive-descent reading proved sound and complete for it, `FlatTable`, `SpanNesting` and
  `PointerIndex` the three invariants of the parser's state, `ResponseJson` the parser itself,
  `JsonPrint`, `KeyOrder` and `ExactJson` the writer, `JsonLexicon` both against the lexical tables,
  and `TextOverrides`, `OverrideMap` and `TextPlaces` the placement of caller text in an encoded body.
* **Continuation.** The caller always passes the whole history; the session sends only a suffix and
  a response id when the prefix is one the endpoint holds. `Conversation` has the decisions,
  `ItemIdentity` and `SettingIdentity` what items and settings share that count as the same,
  `ContinuationRules` the decisions in the words of the interface, by field name, status and code,
  `ConversationRun` every interleaving of preparations, dispatches, answers, late observers, resets,
  recoveries and forgetting, against an endpoint that stores one history per response id, and
  `ConversationSession` the session and observer objects. `WebSocket` is the turn-scoped variant and
  `WireAssembly` the observation of a streamed response, with the reassembly of an Anthropic message,
  whose every field `WireContent` gives from the events.
* **Projection.** `StreamAssembly`, `StreamRuns` and `StreamContent` fold interleaved stream events into
  content; `Replay` projects a request into another protocol family with a map of block positions, and
  `ReplayLoss` says what each block keeps.
* **Arithmetic.** `Calendar`, `Timestamps`, `Decimal` and `SigV4` hold the date, fixed-point and
  canonical-encoding functions.

Text is a sequence of Unicode scalar values, a JavaScript string a sequence of 16-bit units. Source
offsets count characters. Loops and objects of the source are methods and classes here, each tied to
a specification function; the theorems about whole inputs and whole runs are about those functions.
What a function decides is stated once more without it: by the fields two items share, the table a
code stands in, the events a run was told.
The invariants are closed predicates and most lemmas `hide` the definitions they do not need.

Some promises hold only under a condition, and the lemma states it as an equivalence with a guard
that can be checked beforehand: the epoch that keeps late observers out is a wrapping 64-bit counter
(`StaleObserverPublishes`, `RecoveryQuietIff`), a decimal whose units are the 128-bit minimum is printed but not read
back (`TextRestores`), a time from the year 10000 on is printed but not read back
(`FormatRoundTrip`), one lossy pass over a text block carrying both citations and a thought
signature leaves something that rejection refuses (`OnePass`, `AdaptSettles`).

## Model

| member | source | states |
|---|---|---|
| JsonDescent.AcceptsExactlyJson | src/response_json.rs:874-1170 | The reading accepts a text exactly when the grammar derives it, and every derivation of the text denotes the value read, so a text denotes one value |
| JsonDescent.CutOut | src/response_json.rs:341-351 | A value cut out of its text at the span where it was read parses alone to the same value |
| JsonValue.PutExisting | src/response_json.rs:1032-1082 | A repeated key keeps its first position and takes the last value; all other fields stay |
| JsonPointer.WithinIsPrefix | src/response_json.rs:1383-1389 | The textual test for a pointer inside another holds exactly when the second path is a prefix of the first, whatever `~` and `/` the segments hold |
| JsonPointer.PointerInjective | src/response_json.rs:1368-1381 | Different paths have different pointers |
| JsonPointer.SplitPointer | src/response_json.rs:226-254 | Splitting and unescaping a pointer gives back its path |
| SpanNesting.NestedTake | src/response_json.rs:993-1082 | Taking a child keeps all spans laminar, children inside parents, siblings disjoint and in source order |
| FlatTable.TakeOpen | src/response_json.rs:955-1082 | Opening a nested container keeps the table invariant: every open frame is exactly a suspended call of the recursive reading |
| FlatTable.Finish | src/response_json.rs:1084-1097 | Closing a container makes its span read as its own tree and resumes the frame below it |
| PointerIndex.StepAgrees | src/response_json.rs:1032-1082 | Clearing a replaced subtree from the index and entering the new child keeps the index equal to the walk on every path without an ill-formed key |
| PointerIndex.IndexIsWalk | src/response_json.rs:226-254 | With no ill-formed keys, the index gives for every path exactly the node the segment-by-segment walk finds, also after duplicate keys cleared whole subtrees |
| PointerIndex.WalkIsTree | src/response_json.rs:226-254 | The walk over the table finds exactly the node of the subtree the path leads to in the tree |
| ResponseJson.PushPointerSegment | src/response_json.rs:1368-1381 | Both branches append the escaped segment |
| ResponseJson.ResponseJsonParser.ReadString | src/response_json.rs:1172-1222 | Reads exactly the units the grammar gives the string, lone surrogates included, and ends where it ends, or fails exactly when it is no string |
| ResponseJson.ResponseJsonParser.ReadHexUnit | src/response_json.rs:1224-1240 | Reads four hexadecimal digits as one code unit or fails |
| ResponseJson.ResponseJsonParser.Number | src/response_json.rs:1135-1162 | Succeeds, and stops, exactly where the specification's number reading does, which `AcceptsExactlyJson` ties to the grammar |
| ResponseJson.ResponseJsonParser.ClearReplacedSubtree | src/response_json.rs:1278-1287 | Removes from the index and the exact keys exactly the pointers that lie inside the replaced subtree |
| ResponseJson.ResponseJsonParser.ReadValue | src/response_json.rs:955-991 | Appends one node for a leaf or an opened container and keeps the rest of the table |
| ResponseJson.ResponseJsonParser.ArrayValue | src/response_json.rs:993-1018 | Keeps the whole parser invariant, or the text is rejected by the specification too |
| ResponseJson.ResponseJsonParser.ReadKey | src/response_json.rs:1020-1030 | Keeps the whole parser invariant with the key pending, or the text is rejected by the specification too |
| ResponseJson.ResponseJsonParser.ObjectValue | src/response_json.rs:1032-1082 | Keeps the whole parser invariant for new and repeated keys, or the text is rejected by the specification too |
| ResponseJson.ResponseJsonParser.PopFrame | src/response_json.rs:1084-1097 | Closes the top container, restores the parent path, and keeps the invariant or completes the document |
| ResponseJson.ResponseJsonParser.Step | src/response_json.rs:874-953 | One turn of the frame loop keeps the invariant and consumes text, at any depth |
| ResponseJson.ResponseJsonParser.Document | src/response_json.rs:874-953 | Succeeds exactly when the specification does, with a table faithful to the text |
| ResponseJson.ParseDocument | src/response_json.rs:874-1170 | Succeeds exactly on JSON texts; the root denotes the text's value; every node's span, cut out and parsed alone, gives that node's subtree; spans nest with disjoint ordered siblings; the index agrees with the walk |
| ResponseJson.NodeIdAt | src/response_json.rs:226-254 | On any pointer text, canonical or not, the loop gives what the specified lookup gives: the index entry, or the walk over decoded segments when an ill-formed key is on record |
| ResponseJson.NodeAtReads | src/response_json.rs:226-254 | On every canonical pointer that lookup is the walk, with or without ill-formed keys, and the node found holds exactly what the path leads to in the value of the text |
| Utf16.ToWellFormed | src/exact_json.rs:442-464 | The repair loop computes the repair of the units |
| Utf16.RepairProperties | src/exact_json.rs:442-464 | The repair is well-formed, of unchanged length, and the identity exactly on well-formed input |
| Utf16.RepairAt | src/response_json.rs:1391-1412 | Position by position, a surrogate without its other half beside it becomes U+FFFD and every other unit, paired surrogates included, stays |
| JsonPrint.WriteString | src/exact_json.rs:847-906 | The string writer appends the quoted form of the units |
| JsonPrint.QuoteReads | src/exact_json.rs:847-906 | The quoted form is made of grammatical tokens denoting exactly the written units, lone surrogates included |
| JsonPrint.PrintReads | src/exact_json.rs:34-212 | Every printed value reads back as itself, keys and units intact |
| JsonLexicon.ShortIff | src/response_json.rs:1172-1222 | The short escapes are those of section 7 of RFC 8259 and no others, each denoting what its four hexadecimal digits denote |
| JsonLexicon.HexIff | src/response_json.rs:1414-1421 | A hexadecimal digit has the value of its place in either alphabet |
| JsonLexicon.BlankIff | src/response_json.rs:1289-1296 | The blanks are space, tab, line feed and carriage return |
| JsonLexicon.PlainIff | src/exact_json.rs:889-906 | The writer leaves alone exactly the characters that may stand for themselves in a string: no control character, quote or backslash |
| JsonLexicon.TokenShortest | src/exact_json.rs:889-906 | Of all spellings of a character the writer takes a shortest, with lower-case digits |
| KeyOrder.JavascriptArrayIndex | src/exact_json.rs:214-229 | The digit loop computes the array index of a key |
| KeyOrder.ArrayIndexIff | src/exact_json.rs:214-229 | A key is the array index n exactly when n is below 2^32 - 1 and the key is the canonical decimal of n |
| KeyOrder.OrderIsEnumeration | src/exact_json.rs:178-184 | The emission order lists every position once: array indices first and ascending, then the other keys in source order |
| ExactJson.Serialize | src/exact_json.rs:34-212 | The explicit-stack writer terminates at any depth, fails exactly when overlays meet a non-object or a number in place has no rendering, and otherwise writes the text of the canonical form, which `CanonicalAlike` and `AlikeDown` describe |
| ExactJson.OverlayEntries | src/exact_json.rs:141-177 | The entry loop replaces the first entry of each overlay name and appends the overlays left |
| ExactJson.WrittenReads | src/exact_json.rs:34-212 | The written text of any node of a parsed document reads back as a tree alike to that node: literals and keys unchanged, each number the rendering of its token, fields in emission order |
| ExactJson.CanonicalAlike | src/exact_json.rs:34-212 | At every depth the canonical form keeps `null`, `true` and `false`, renders each number by the given rendering, lists all fields in order and, when asked, repairs string values, and changes nothing else |
| ExactJson.AlikeDown | src/exact_json.rs:66-106 | Along every path the written tree has what the given one has: a literal is the same literal, a number its rendering, a string its units or their repair |
| ExactJson.CanonicalIdempotent | src/exact_json.rs:34-212 | With a stable number rendering the canonical form of a canonical form is itself |
| ExactJson.OverlayReads | src/exact_json.rs:26-212 | Overlays with distinct names read back as replacements in place or appended fields of the root alone; nested objects keep their fields |
| ExactJson.Malformed | src/exact_json.rs:405-434 | The stack search finds an ill-formed string value exactly when the tree holds one |
| ExactJson.NormalizeBody | src/exact_json.rs:382-440 | Leaves a body alone exactly when the protocol is not a Claude one, the root is a scalar or every string value is well-formed; fails exactly on a Claude body that is no JSON or needs repair and holds a number without a rendering; otherwise the result reads as a tree alike to the given one with every string value repaired, literals as they were |
| ExactJson.TotalWrites | src/exact_json.rs:93-106 | A number rendering that never fails, as the JavaScript one, leaves nothing unwritable |
| ExactJson.NormalizeTwice | src/exact_json.rs:382-440 | A rewritten body has the same shape and keys, every string value well-formed, and a second pass leaves it alone |
| TextOverrides.InputPointerIff | src/exact_json.rs:628-637 | A pointer names a message block exactly when it is the canonical pointer of that block's text |
| TextOverrides.EncodedTextFields | src/exact_json.rs:654-745 | The loops over an encoded body list its text fields with role, text and path, family by family |
| TextOverrides.FieldPaths | src/exact_json.rs:654-745 | No two listed fields share a path, and each path lies in its own message |
| OverrideMap.ScanOverrides | src/exact_json.rs:480-509 | Accepts exactly when every block pointer names a text block, and splits the overrides into places and pass-through pointers |
| OverrideMap.CollectSources | src/exact_json.rs:516-556 | Visits every text contributor in order, groups them by role and text, and leaves no requested place unvisited |
| OverrideMap.FillFields | src/exact_json.rs:558-583 | Succeeds exactly when every group that carries units has as many fields as sources, and then assigns the k-th source to the k-th field |
| OverrideMap.MapMessageTextOverrides | src/exact_json.rs:469-599 | Succeeds exactly when the scan, the grouping, the field counts and the lookup of every pass-through pointer in the scanned body all fit, and returns the assignment with the pass-through entries |
| OverrideMap.NamesStringIff | src/exact_json.rs:586-597 | A canonical pass-through pointer is accepted exactly when its path leads to a string in the body, whatever ill-formed keys the body holds |
| OverrideMap.AssignedMeans | src/exact_json.rs:558-583 | The assignment holds every carried text at its own pointer, no other pointer, and as many entries as carriers |
| OverrideMap.PointersDistinct | src/exact_json.rs:558-583 | Distinct carrying sources get distinct pointers |
| OverrideMap.NothingLost | src/exact_json.rs:469-599 | On success the result has as many entries as carrying sources plus pass-through entries, every pass-through entry keeps its value, and carriers keep apart |
| OverrideMap.OverrideKept | src/exact_json.rs:469-599 | On success every override the caller asked for is in the result with its value, at the field of the block it named |
| TextPlaces.SourcesAre | src/exact_json.rs:516-556 | The sources are exactly the blocks that show a text on the wire of the family, each with the role name of its message, its text and its own or requested units, in the order of the conversation; collecting fails exactly when the units of some block differ from those requested or do not spell its text |
| TextPlaces.EncodedFieldIff | src/exact_json.rs:654-745 | The slots are exactly the text fields of the body, family by family, each with its role, its text and its place |
| TextPlaces.SlotsOrdered | src/exact_json.rs:654-745 | Slots are listed in the order of the body: by message, then by part |
| TextPlaces.PointerIs | src/exact_json.rs:558-583 | The field of a carrying source is the one with its role and text and as many such fields before it as there are such sources before the source |
| TextPlaces.BalancedIff | src/exact_json.rs:558-583 | The field count fits a carrying source exactly when there are as many fields as sources of its role and text |
| Payload.SemEqTransitive | src/client/conversation_session.rs:760-821 | The order-blind payload comparison is transitive |
| Payload.GetReplace | src/client/conversation_session.rs:650-676 | Replacing one root field changes that field and no other |
| ConversationRun.EndpointSeesConversation | src/client/conversation_session.rs:304-434 | In every run each dispatched request without an explicit continuation gives an endpoint that holds its reference the full logical items, each the same as the caller's by `ItemIdentity.SameItem`, which is stated field by field; a thread's system prompt and tools agree, every other field of the body is kept, and an explicit request goes out unchanged and unobserved |
| ConversationRun.CompletedMatchesEndpoint | src/client/conversation_session.rs:1036-1103 | In every run the endpoint's history for the completed id is, item by item the same, the completed logical items followed by its output |
| ConversationRun.StepKeeps | src/client/conversation_session.rs:142-545 | Every event keeps the invariant tying drafts, calls, the completed state and the endpoint's store together |
| ConversationRun.AlwaysPublishedByCurrent | src/client/conversation_session.rs:1030-1103 | In every interleaving the completed state is empty or was published by the latest call that published, whose preparation made the latest epoch advance or one a multiple of 2^64 before it |
| ConversationRun.PublishesOnce | src/client/conversation_session.rs:1036-1103 | In every run one observation publishes at most once |
| ConversationRun.RecoveryQuietIff | src/client/conversation_session.rs:465-506 | An accepted recovery leaves no observer that can publish exactly when no outstanding call was observed under the next epoch |
| ConversationRun.LateObserverPublishes | src/client/conversation_session.rs:1036-1103 | After a recovery an observer with something to publish publishes if and only if it has the next epoch |
| ConversationRun.RecoverySendsWhole | src/client/conversation_session.rs:465-506 | In every run, after an accepted recovery that finds no observer of the next epoch and any late observers, the next preparation continues nothing: it sends the whole body |
| ConversationRun.RecoveryBeforeWrap | src/client/conversation_session.rs:465-506 | In every run of fewer than 2^64 advances this is always so |
| ConversationRun.StaleObserverPublishes | src/client/conversation_session.rs:191-204 | After n resets an old observer can publish if and only if 2^64 divides n |
| ConversationRun.CompatibleThread | src/client/conversation_session.rs:678-712 | Two compatible thread requests have the same system prompt and tools |
| ItemIdentity.ComparableIff | src/client/conversation_session.rs:774-821 | Two items compare equal exactly when they share what counts: a Responses message every root field but id, status, type and content, and part by part every field but annotations and log probabilities of output text; a function call every field but id and status; a thread message every root field but content, and block by block every field but the cache mark; anything else, semantic equality. An item cannot be compared exactly when it is a thread message with a content block that is no object |
| ItemIdentity.PrefixIff | src/client/conversation_session.rs:760-772 | A prefix matches exactly when all items of both sides can be compared and are the same one by one |
| ItemIdentity.ObjectsEqualIff | src/client/conversation_session.rs:711 | Two objects without repeated keys are semantically equal exactly when every key has equal values or is missing in both |
| SettingIdentity.CompatibleIff | src/client/conversation_session.rs:678-712 | Two requests are compatible exactly when both can be compared and every field agrees, apart from the items, `stream`, the model on an allowed switch and a thread's four free fields; a thread's fallbacks agree on being there, its container on the skills, its servers on everything but their tokens |
| ContinuationRules.ParsedDistinct | src/response_json.rs:1032-1082 | A parsed document repeats no key in any object, which is all that the runs and rules of the session ask of a body |
| ContinuationRules.CapabilityIff | src/client/conversation_session.rs:26-50 | Which profiles continue anything, by protocol, flags, provider id and base URL up to trailing slashes |
| ContinuationRules.SwitchIff | src/client/conversation_session.rs:678-758 | The model may change exactly on the first-party Gemini endpoint when the next model takes text and every part of every step of the replayed history |
| ContinuationRules.ContinuesIff | src/client/conversation_session.rs:207-434 | A preparation continues exactly when the exchange may be kept, transport and identity are those of the completed response, the settings agree and the history begins with what the endpoint holds; it then names that response and sends exactly the items after the held ones |
| ContinuationRules.OtherwiseWhole | src/client/conversation_session.rs:207-434 | A preparation that goes through without continuing sends the logical body, a thread with `{"type":"create"}` added, in the mode that says so; either kind is observed exactly when the exchange may be kept |
| ContinuationRules.RefusedIff | src/client/conversation_session.rs:207-434 | A preparation is refused exactly when it counts tokens, its body does not settle or parse, authentication is missing where one is needed, or the comparison with the completed response meets something it cannot compare |
| ContinuationRules.ReadyLeaves | src/client/conversation_session.rs:207-434 | Transport, identity, capability and epoch after a preparation that goes through |
| ContinuationRules.RefusedLeaves | src/client/conversation_session.rs:207-434 | A refused preparation leaves nothing to dispatch and forgets the completed response only with its transport or when the comparison failed; counting tokens leaves everything |
| ContinuationRules.RecoverableIff | src/client/conversation_session.rs:465-506 | A replay is authorized exactly by a rejection of threads as such or, when the request continued, by one of the seven status and code pairs or a message that says the named response is not found |
| ContinuationRules.PublicationIff | src/client/conversation_session.rs:1054-1103 | A response seeds a continuation exactly when it ended well and has an id and its output, which is then what is held |
| ContinuationRules.UnpublishableIff | src/client/conversation_session.rs:1036-1053 | What was not stored or was served by a fallback seeds nothing |
| ConversationRun.DispatchesIff | src/client/conversation_session.rs:439-463 | In every run a dispatch sends a call exactly when its token is that of the last ready preparation and nothing withdrew it since, and then it sends what was prepared under it |
| ConversationRun.SentOnce | src/client/conversation_session.rs:439-463 | In every run a prepared request goes out at most once |
| ConversationSession.ConversationSession.Prepare | src/client/conversation_session.rs:207-434 | New state and result are those of the specified step, whose decisions `ContinuesIff`, `OtherwiseWhole`, `RefusedIff`, `ReadyLeaves` and `RefusedLeaves` state |
| ConversationSession.ConversationSession.Dispatch | src/client/conversation_session.rs:439-463 | Only the latest preparation's token goes out, once, and takes the pending observation along |
| ConversationSession.ConversationSession.Recover | src/client/conversation_session.rs:465-506 | Accepts exactly the recoverable rejections; then clears the history, remembers a disabled thread and marks the recovery |
| ConversationSession.ConversationSession.Reset | src/client/conversation_session.rs:191-204 | Advances the epoch modulo 2^64 and clears the completed state, the pending observation, the binding and the last reference, and nothing else |
| ConversationSession.ConversationSession.ClearHistoryPreservingTransport | src/client/conversation_session.rs:184-189 | Clears like a reset and forgets recovery, capability and identity, keeping the transport |
| ConversationSession.ConversationSession.CompleteIn | src/client/conversation_session.rs:510-545 | Dispatches at most twice, the second time only after the first response authorized a recovery, and then with the whole logical input whoever commits late, unless a late observer has the very epoch the recovery advanced to |
| ConversationSession.LatePublishes | src/client/conversation_session.rs:1036-1103 | That exception is exact: a late observer with something to publish publishes after the recovery if and only if it has that epoch |
| ConversationSession.Observer.Commit | src/client/conversation_session.rs:1036-1103 | A body that was not stored or fell back invalidates; otherwise an unused observation is used up and, if its epoch is current, publishes the response's id and output or clears the completed state when one is missing |
| ConversationSession.Observer.Invalidate | src/client/conversation_session.rs:1030-1035 | Clears the completed state exactly when the epoch is current, without advancing it |
| ConversationSession.Observer.Event | src/client/conversation_session.rs:1002-1028 | An error invalidates, an end commits the terminal response or else the assembled candidate, anything else changes nothing |
| WireAssembly.WireObservation.ObserveWire | src/client/conversation_session.rs:1105-1224 | One event changes block map, fragments, message and candidate as specified for the capability, or is refused exactly when the specification refuses it, taking only the fragments of the block it stops |
| WireAssembly.WireObservation.Bytes | src/client/conversation_session.rs:974-1001 | A chunk's frames act in order until one is bad, which makes the observation invalid for good |
| WireAssembly.CandidateAssembles | src/client/conversation_session.rs:1105-1224 | At `message_stop` the candidate holds exactly the started blocks in index order, each text, thinking and signature field its start value followed by all its deltas, each input as parsed from all its fragments |
| WireAssembly.CutDelta | src/client/conversation_session.rs:1154-1180 | Splitting a delta into two consecutive ones changes nothing |
| WireAssembly.CutFragment | src/client/conversation_session.rs:1154-1166 | Splitting a tool input fragment into two consecutive ones changes nothing |
| WireAssembly.UnfinishedNeverOffered | src/client/conversation_session.rs:1207-1218 | A message that stops with unfinished tool input offers no candidate, then or ever after |
| WireAssembly.FramesAreEvents | src/client/conversation_session.rs:974-1001 | Feeding frames is feeding the events they read as, so chunk boundaries do not matter |
| WireContent.CandidateHolds | src/client/conversation_session.rs:1105-1224 | At `message_stop` every field of the candidate is that of the opened message, with the last stop reason and usage told since, and every field of every block is its start value, text fields followed by their deltas, citations by all further ones, input as parsed from the last complete fragments |
| WireContent.ThreadReads | src/client/conversation_session.rs:1117-1222 | What each event means, by its type, index and fields: each delta kind goes to its own field |
| WireContent.MalformedIff | src/client/conversation_session.rs:1126-1166 | An event stops the observation exactly when it is a delta or a block stop that cannot be read |
| WireContent.CompletedReads | src/client/conversation_session.rs:1110-1119 | Of the other capabilities the completed body is read, and nothing else |
| WebSocket.SessionState.ObserveResponseFrame | src/websocket.rs:194-243 | Each frame kind leaves the specified cached request, id, output, prewarm mark and health, the announced items and the terminal flag |
| WebSocket.SessionState.ClearContinuation | src/websocket.rs:245-258 | Drops the cached continuation and, when asked, the health |
| WebSocket.StripIdempotent | src/websocket.rs:132-162 | Stripping an item for comparison twice is stripping it once |
| WebSocket.MatchesIff | src/websocket.rs:132-162 | Lists match exactly when their items share what counts, one by one: a message every field but id, status, type and content, and part by part every field but annotations and log probabilities of output text; a function call every field but id and status; anything else, equality |
| WebSocket.IncrementalIff | src/websocket.rs:68-130 | A body is shrunk exactly when neither it nor the cached request names a response, every other field of both but `input` and `generate` agrees, and its input begins with the cached input and then the cached output |
| WebSocket.IncrementalConveys | src/websocket.rs:68-130 | A shrunk body appended to the history held for the cached id is, item by item the same, the full logical input, and keeps every other field |
| WebSocket.IncrementalOnlyImplicit | src/websocket.rs:68-130 | A body with an explicit previous response id, null included, is never shrunk, nor one following such a request |
| WebSocket.EndpointSeesConversation | src/websocket.rs:68-258 | In every run of sends, answers, observations, clears and forgetting, the endpoint sees the full logical input, item by item the same by `SameItem`, every other field of a shrunk body is kept, and an explicit body goes out unchanged |
| StreamAssembly.StreamAccumulator.Observe | src/stream_assembly.rs:180-392 | Every event kind changes the assembly as specified and is logged; what a run then holds is told by `ContentAssembles`, `FactsAssemble` and `SearchAssembles` |
| StreamAssembly.StreamAccumulator.ObserveBlock | src/stream_assembly.rs:186-341 | An event naming a block changes that block alone, as `FieldsAssemble`, `CallAssembles`, `TextAssembles` and `SignatureAssembles` tell |
| StreamAssembly.StreamAccumulator.ApplyServerFallback | src/stream_assembly.rs:166-174 | Exactly the discarded blocks leave the map and the completion order |
| StreamAssembly.StreamAccumulator.ObserveBatch | src/stream_assembly.rs:396-412 | Good events before and after a bad one are observed, accounting is the batch's, and the first error is returned |
| StreamAssembly.CleanBatch | src/stream_assembly.rs:396-412 | A batch returns no error exactly when every event was good and nothing failed to merge |
| StreamAssembly.ExtendInPlace | src/stream_assembly.rs:578-584 | The loop computes the union that keeps what is there in place |
| StreamAssembly.ExtendUniqueMeans | src/stream_assembly.rs:578-584 | The current items stay as a prefix, the elements are those of both lists, and no repetition appears |
| StreamAssembly.ExtendUniqueAgain | src/stream_assembly.rs:578-584 | Extending by items already present changes nothing |
| StreamRuns.Isolation | src/stream_assembly.rs:180-392 | In every run a block depends only on the events naming it, the Anthropic connector payloads and the fallbacks |
| StreamRuns.Interleaving | src/stream_assembly.rs:71-118 | Two runs with the same such inputs and stop reason give a block the same content, however other blocks interleave |
| StreamRuns.TextAssembles | src/stream_assembly.rs:186-292 | In every run a block's text is the lossy decoding of all units it was told since its last discard or replacement, run together, and the units themselves are kept exactly when some were exact or ill-formed; ends, signatures and everything else leave the text alone |
| StreamRuns.SignatureAssembles | src/stream_assembly.rs:223-292 | In every run a block's signature is all its signature deltas since the last discard, and its citations those of the last replacement |
| StreamRuns.PlainIff | src/stream_assembly.rs:71-118 | In every run a block has nothing that covers its text exactly when no reasoning, tool call or native content reached it since its last discard |
| StreamRuns.PlainContent | src/stream_assembly.rs:71-118 | In every run such a block's content, ended or not, is its assembled text, units, signature and citations |
| StreamRuns.CutsDoNotMatter | src/stream_assembly.rs:186-215 | Two runs, with whatever ends, signatures, tools or fallbacks, that tell a block the same units in differently cut deltas and agree on what else concerns it give it the same content |
| StreamRuns.ToolAssembles | src/stream_assembly.rs:293-332 | A tool block holds all its argument fragments in order and the last non-empty id and name |
| StreamRuns.ToolsAccounted | src/stream_assembly.rs:461-546 | Every tool block of a snapshot is either content or listed as incomplete, never both |
| StreamRuns.FinishedTools | src/stream_assembly.rs:548-575 | If finishing succeeds with a stop other than the token limit, every tool block is native content or a tool use parsed from all its fragments |
| StreamRuns.LogIsComplete | src/stream_assembly.rs:461-546 | The log of a snapshot is every observed event in order |
| StreamContent.FieldsAssemble | src/stream_assembly.rs:216-341 | In every run a block's reasoning is all its reasoning deltas since the last discard run together, its native content the last given, its companion the last phase, its end as told |
| StreamContent.CallAssembles | src/stream_assembly.rs:293-332 | In every run a call holds its last non-empty id and name, the last of each other field and all its fragments |
| StreamContent.ContentAssembles | src/stream_assembly.rs:71-118 | In every run a block's content is its last native content, typed content only once the turn ended for it, or else its complete call, or else its reasoning with its signature, or else its text |
| StreamContent.ProjectionIff | src/stream_assembly.rs:244-292 | Provider content becomes text exactly when it is Anthropic text with nothing but type, text and citations; absent, null and present citations stay apart |
| StreamContent.SnapshotContent | src/stream_assembly.rs:461-546 | The message is the pieces of all blocks by ascending index, each its content and right after it its companion |
| StreamContent.FactsAssemble | src/stream_assembly.rs:180-392 | In every run model, response id, stop, usage and inference are the last ones told |
| StreamContent.CompletedAssembles | src/stream_assembly.rs:342-392 | In every run the completed blocks are, without repetition, exactly those ended or closed by a connector since their last discard |
| StreamContent.SearchAssembles | src/stream_assembly.rs:346-385 | In every run citations, queries and hits are exactly those of all searches, without repetition |
| StreamContent.BatchObserves | src/stream_assembly.rs:396-412 | Observing a batch is observing its good events as a run, whatever failed between them |
| StreamContent.FirstErrorIs | src/stream_assembly.rs:396-412 | The error of a batch is that of the first arrival that is bad or fails to merge |
| Replay.AdaptRequest | src/replay.rs:360-410 | Succeeds exactly when the specification does, with its request; the position map sends exactly the kept blocks, lexicographically increasing, onto all output blocks, each to its normalised (in one family unchanged) block, which `LossyKeeps` describes |
| Replay.PlacedInjective | src/replay.rs:360-410 | Such a position map is one-to-one |
| Replay.OnePass | src/replay.rs:79-347 | One lossy pass leaves a block compatible and fixed exactly when it was not a text carrying both citations and a thought signature for a family that takes neither |
| Replay.TwoPasses | src/replay.rs:79-347 | Two lossy passes always reach a compatible fixed block |
| Replay.RejectAccepts | src/replay.rs:38-55 | Rejection accepts a block exactly when it is compatible, and then agrees with lossy normalisation |
| Replay.AdaptSettles | src/replay.rs:360-410 | After one lossy adaptation of a whole request rejection accepts the result unchanged exactly when no text carried both layers, and after two always |
| Replay.LayeredRefused | src/replay.rs:241-254 | A request with such a text is refused by rejection after one lossy pass |
| ReplayLoss.LossyKeeps | src/replay.rs:79-347 | What lossy normalisation keeps of each kind of block: text, units, reasoning, call id, name and input and every other field stay, and a signature, caller, toolset, provider id or citations field is dropped exactly when it is bound to a family the target is not; a block goes altogether exactly as listed |
| ReplayLoss.RejectKeepsAll | src/replay.rs:38-55 | What rejection accepts keeps everything |
| ReplayLoss.ContextMeans | src/replay.rs:60-77 | A message counts as holding foreign reasoning exactly when some block is reasoning content of another family |
| ReplayLoss.AdaptLoses | src/replay.rs:360-410 | Every block of a whole lossy adaptation keeps what `LossyKeeps` says |
| ReplayLoss.SurvivorsAre | src/replay.rs:380-400 | The messages that are left come in their old order, each as it was but for its blocks; exactly those with neither blocks nor native options are gone |
| Calendar.CivilValid | src/account/support.rs:121-133 | Every day count gives a valid Gregorian date whose day number is that count |
| Calendar.CivilInverse | src/account/http.rs:56-131 | Every valid date is recovered from its day number |
| Calendar.CivilIsCounted | src/account/support.rs:121-133 | The conversion equals counting days one by one from 1 January 1970, forwards and backwards |
| Calendar.BrokenAgrees | src/auth/sigv4.rs:451-469 | The second implementation gives the same month, day and clock for every second count, and the same year exactly below 2^32 |
| Calendar.FormatRoundTrip | src/account/support.rs:105-133 | Reading back a printed time gives the second count exactly when it is before the year 10000 |
| Timestamps.ParseIff | src/account/http.rs:56-131 | A text is read exactly when it is a day or a timestamp with an optional fraction and a zone that names a second from 1970 on, and as that second: the local clock less the shift, leap second 60 allowed |
| Decimal.SubtractExact | src/account/support.rs:208-224 | A difference that is given is the exact real difference, and stays within reachable decimals |
| Decimal.TextRestores | src/account/support.rs:157-236 | Reading back a printed decimal restores units and scale exactly when the units are not the 128-bit minimum |
| Decimal.ReachableIff | src/account/support.rs:157-224 | A decimal is in range exactly when some text parses to it or it is the difference of two that do; texts give exactly those whose units are not the 128-bit minimum |
| Decimal.MinimumReached | src/account/support.rs:208-224 | At every scale the 128-bit minimum is the difference of two decimals that texts give |
| Decimal.ParseIff | src/account/support.rs:157-201 | A text is read exactly when it is digits, a fraction and a signed power of ten that fit, and then as the very number it stands for |
| SigV4.PercentDecodeRaw | src/auth/sigv4.rs:242-259 | The loop computes the lossy text of the decoded bytes; a `%` that starts no triplet stands for itself |
| SigV4.DecodeEncode | src/auth/sigv4.rs:210-259 | Decoding undoes encoding on every string |
| SigV4.EncodeChar | src/auth/sigv4.rs:210-240 | Letters, digits, `-`, `_`, `.` and `~` stand for themselves; any other character is its UTF-8 bytes, each a percent sign and two upper-case digits |
| SigV4.DecodePercent | src/auth/sigv4.rs:242-286 | A percent sign and two hexadecimal digits of either case are one byte |
| SigV4.DecodeBroken | src/auth/sigv4.rs:242-286 | Any other percent sign stands for itself |
| SigV4.QueryIdempotent | src/auth/sigv4.rs:368-395 | Canonicalising a canonical query, whose order `QueryIs` gives, changes nothing |
| SigV4.QueryPermutation | src/auth/sigv4.rs:368-395 | Permuting the pairs of a query does not change its canonical form, whose order `QueryIs` gives |
| SigV4.QueryIs | src/auth/sigv4.rs:368-395 | The pairs of the canonical query are, as a multiset, the recoded non-empty pieces of the input, and they ascend: at the first difference of the keys, or of the values of equal keys, the earlier one has ended or has the smaller character |
| SigV4.NormalizePath | src/auth/sigv4.rs:322-366 | The segment loop computes the path with empty, `.` and `..` segments resolved and the trailing slash kept |
| SigV4.PathIdempotent | src/auth/sigv4.rs:322-366 | Normalising a normalised path changes nothing |
| SigV4.DotErased | src/auth/sigv4.rs:322-366 | An empty or `.` segment may be left out of a path |
| SigV4.ParentCancels | src/auth/sigv4.rs:322-366 | A segment followed by `..` may be left out with it |
| SigV4.ParentOfRoot | src/auth/sigv4.rs:322-366 | A leading `..` may be left out |
| SigV4.PlainStays | src/auth/sigv4.rs:322-366 | A path of other segments stays as it is, trailing slash included |
| Utf8.LossyUtf8 | src/auth/sigv4.rs:242-259 | The lossy decoding of the bytes of a text is the text |
| Utf8.BrokenFirst | src/auth/sigv4.rs:242-259 | Where no character begins, one U+FFFD stands for the longest beginning of a character there is, or for one byte |
| Utf8.LossyNext | src/auth/sigv4.rs:242-259 | Lossy decoding takes a whole character or one such replacement and goes on behind it |

## Left out

- Number rendering (`ryu_js`, `serde_json::Number`, `f64`): a total or failing function on number tokens, passed as a parameter. Where a theorem needs it to give tokens or to be stable, its `requires` says so.
- SHA-256, HMAC, header canonicalisation and the `url` crate behind request signing, and the per-segment encoding of the canonical path.
- ResponseJson.ResponseJsonParser.ClearReplacedSubtree: does not model the clearing of `exact_strings` and `source_spans`, whose maps are left out.
- The display-keyed sidecars `exact_strings`, `exact_keys` and `source_spans` and `finish`, beyond the part of `exact_keys` that the lookup reads; claims are by node.
- `stringify_flat_json`, the masking printer for opaque paths: a second, simpler use of the writer's stack.
- Byte offsets: spans count characters of the text; `usize` is unbounded.
- Error texts, error classification and provider error leaves.
- ConversationSession.ConversationSession.Prepare: the HTTP path; the branch that chooses a Responses WebSocket, whose transport is not part of this model, is left out.
- ConversationSession.ConversationSession.Dispatch: the HTTP path, with transport and sealing as a success flag.
- Transports, deadlines, sealing, admission and authentication: each is a step that succeeds or fails. `stream_in` and beta headers are left out.
- Connection fingerprints: the digest is taken to be collision-free, so identities are compared as values.
- An errored stream that publishes later: `invalidate` does not advance the epoch, so nothing is claimed about it.
- WireAssembly.WireObservation.Bytes: the block map after a bad frame is left open, because the observation is invalid and offers nothing from then on.
- `ConnectorTextAccumulator` and the merge of search metadata are functions of what they were fed; frame splitting is left out.
- Progress queries of the stream accumulator (`completed_blocks`, `tool_progress`, `block_finished`), which only read it.
- OverrideMap.MapMessageTextOverrides: not for the Gemini Interactions family, on which the source panics.
- Codecs, presets, catalogues, pricing, account sources, header policies and audio adapters.
