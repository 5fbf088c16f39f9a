# PowerContext core protocols, verified

A Dafny model of the parts of PowerContext that carry unbounded guarantees, with proofs of those guarantees.
`dafny verify dfyconfig.toml` checks the whole project.

- **Connector run session.** `ConnectorSession` holds the shared state and its critical sections, as functions on a value
  and as a class that performs the same updates in place. `SessionProtocol` interleaves any number of Submit, Reject, Fail
  and Finalize calls, one step per critical section and one per sink reply, and proves an inductive invariant. It does so
  for any `Rules` of claiming and deciding; `RulesOf` gives those of a Connector session. `SessionRuns` draws the
  conclusions over whole runs: nothing claimed by Submit is lost, the first failure sticks. `SessionDrain` shows that the
  drain is signalled once, at the right moment and under every schedule, `SessionFailures` when a failure can come after
  it. `SessionCalls` ties the object's methods to the protocol and `RunResult` carries the outcomes into the run's result
  record.
- **Checkpoint equality.** `JsonNumber` proves that comparing normalised number tokens is comparing rational numbers;
  `Json` lifts that to whole JSON texts and checkpoints.
- **Manifests, observations, admission.** `Manifest`, `FrozenSchema` and `Observation` cover freezing, validation, printing
  and strict parsing, `StrictParsing` what parsing preserves and ignores, `WireShapes` what is printed and what a
  fingerprint covers; `SchemaDialect` the schema-position walker; `Admission` the matching of observations with manifests.
- **Inference loops.** `Generation`, `Usage`, `PromptSpacing`, `Embedding` and `EmbeddingBatches`.
- **Triggers and configuration.** `SourceWindow` and `WorkloadOverlay`.

Three places where the code does less than a reader may expect, each with the exact condition and a concrete run:

- `Finalize` waits for Submit calls only. A session can be drained, without failure, while a Reject or Fail still holds a
  claim and has recorded nothing (`DrainedWithPendingReject`); every claimed item is recorded exactly when no such call is
  pending (`DrainedCompleteIff`).
- A failure can still be recorded after the drain (`FailureAfterDrain`). It stays absent exactly when every Submit, Reject
  or Fail that returns from then on is a Reject or Fail that had claimed its item and has a valid detail
  (`LateFailureIff`).
- `SourceWindowPolicy.Activate` adds cursor and limit in 64 bits. The transition is right exactly when that addition does
  not overflow (`ActivateSoundIff`); otherwise the cursor becomes negative (`OverflowExample`).

## Model

| member | source | states |
|---|---|---|
| `ConnectorSession.DeclaredDefinitions` | source/connector_lifecycle.go:579-594 | accepts exactly the non-empty lists of distinct valid names, and returns exactly those names |
| `ConnectorSession.NewConnectorRunSession` | source/connector_lifecycle.go:335-359 | a session is made exactly for a valid binding, a valid checkpoint, a sink and valid distinct definitions; it is new, carries them and is in the initial state of the protocol |
| `Text.ValidTextExact` | source/connector.go:80-97 | a bounded identity is non-empty, at most the maximum long, and neither starts nor ends with Python whitespace |
| `Text.WhitespaceExact` | source/model.go:93-98 | the code points that count as whitespace |
| `ConnectorSession.ConnectorRunSession.ClaimItem` | source/connector_lifecycle.go:519-541 | a claim is granted iff the identifier is valid and unclaimed, the session open and the definition declared; a refusal names its reason and changes nothing; a grant takes the next sequence number, registers the item and counts a tracked call in flight |
| `SessionProtocol.StepInv` | source/connector_lifecycle.go:402-555 | every step of every call keeps the invariant: claims, owners and item identifiers correspond, outcomes are earned by the claimer of their slot, in-flight count and drain flag are exact |
| `SessionRuns.NothingLost` | source/connector_lifecycle.go:434-469 | in every interleaving, once drained without failure, each item claimed by Submit has exactly one recorded outcome, in the slot it claimed |
| `SessionRuns.FinalizedMeansSettled` | source/connector_lifecycle.go:402-429 | after Finalize returned without error every claimed Submit has returned, and its item has one outcome unless a failure is on record |
| `SessionRuns.ResultsAreDecided` | source/connector_lifecycle.go:434-502 | in every interleaving a claimed call returns exactly what its request and the sink's reply decide, with its outcome in its slot or a failure on record |
| `SessionRuns.AcceptedIsDurable` | source/connector_lifecycle.go:450-468 | an accepted outcome exists only where the sink returned the very reference of the submitted observation to the call that claimed the slot |
| `SessionRuns.UnsafeIsExplained` | source/connector_lifecycle.go:454-502 | a rejected or failed outcome exists only where its claimer was told so with that detail, by the sink or by a Reject or Fail call |
| `SessionRuns.SinkAskedOncePerItem` | source/connector_lifecycle.go:442-454 | distinct sink calls are for distinct items |
| `SessionRuns.ClaimsAreABijection` | source/connector_lifecycle.go:513-541 | claimed item identifiers map one to one onto 0..nextSequence-1, and each outcome sits in its own item's slot |
| `SessionRuns.ClaimIsGrantedIff` | source/connector_lifecycle.go:519-541 | in every reachable state a call that enters claims iff the session is open, no call holds a claim of its item, and identifier and definition are valid and declared |
| `SessionRuns.HistoryIsKept` | source/connector_lifecycle.go:504-541 | however a run continues, no outcome is rewritten, the first failure is never replaced or cleared, a closed session takes no claim, a drained one stays drained |
| `SessionDrain.DrainIsExact` | source/connector_lifecycle.go:543-555 | in every reachable state inFlight counts the Submit calls claimed and not settled, the drain is signalled iff closed and none is left, and the channel was closed at most once |
| `SessionDrain.SettlesCountDown` | source/connector_lifecycle.go:543-548 | after closing only a settle changes the count, by one, and the settle that reaches zero is the step that signals the drain |
| `SessionDrain.EveryScheduleDrains` | source/connector_lifecycle.go:402-429 | after closing, under every schedule and whatever the sink answers, the session is drained iff its in-flight calls have made the steps they had left, and they cannot make more |
| `SessionDrain.WorkCanProceed` | source/connector_lifecycle.go:402-429 | until then some in-flight call can advance |
| `SessionDrain.DrainIsReachable` | source/connector_lifecycle.go:402-429 | from every closed state that satisfies the invariant, letting the in-flight calls run drains the session in exactly that many steps, whatever the sink answers to each of them |
| `SessionDrain.DrainedCompleteIff` | source/connector_lifecycle.go:471-502 | once drained without failure, every claimed item has its outcome iff no Reject or Fail is between its claim and its return |
| `SessionDrain.DrainedWithPendingReject` | source/connector_lifecycle.go:492-500 | a run that is drained without failure while a claimed item has no outcome |
| `SessionFailures.LateFailureIff` | source/connector_lifecycle.go:492-527 | however a run continues after draining without failure, the failure stays absent iff every Submit, Reject or Fail that returns is a Reject or Fail that had claimed before and has a valid detail |
| `SessionFailures.FailureAfterDrain` | source/connector_lifecycle.go:504-527 | a run in which a failure appears after the drain |
| `SessionCalls.Submit` | source/connector_lifecycle.go:434-469 | the whole effect and result of an uninterrupted Submit of an observation, by its validity and the sink's reply |
| `SessionCalls.SubmitOutcome` | source/connector_lifecycle.go:442-468 | accepted iff the claim is granted, the observation valid and of the definition, and the sink returns its very reference; rejected iff the sink rejects; otherwise no outcome and a failure on record; nothing stays in flight |
| `SessionCalls.SubmitError` | source/connector_lifecycle.go:442-465 | which error a Submit returns, check by check |
| `SessionCalls.UnsafeCallOutcome` | source/connector_lifecycle.go:471-502 | Reject and Fail record their outcome iff the claim is granted and the detail valid; otherwise a failure is on record, and an invalid detail leaves the claim behind |
| `SessionCalls.RecordUnsafe` | source/connector_lifecycle.go:481-502 | the whole effect and result of an uninterrupted Reject or Fail; any other status changes nothing |
| `SessionCalls.AloneIsARun` | source/connector_lifecycle.go:434-502 | an uninterrupted call is a run of the protocol with the same final state and result, from whatever state the other calls left |
| `RunResult.SortedSequences` | source/connector_lifecycle.go:382-382 | the sequence numbers of the outcomes, each once, ascending |
| `RunResult.Outcomes` | source/connector_lifecycle.go:376-388 | all outcomes, in claim order |
| `RunResult.CheckItems` | source/connector_lifecycle.go:258-269 | accepts exactly the lists of valid outcomes with distinct item identifiers |
| `RunResult.ValidOutcomeIff` | source/connector_lifecycle.go:649-678 | the valid outcomes: accepted with a valid reference of the definition and no detail, or rejected or failed with a bounded detail and no reference |
| `RunResult.NewConnectorRunResult` | source/connector_lifecycle.go:238-274 | succeeds exactly on a valid binding, status, checkpoints with a proposed value, and items; keeps what it is given |
| `RunResult.ClaimOrderIsItemOrder` | source/connector_lifecycle.go:375-388 | outcomes in claim order have distinct items, each claimed under its own sequence number |
| `RunResult.EarnedIsValid` | source/connector_lifecycle.go:649-678 | an outcome a call may record is valid unless it carries an ill-formed rejection detail of the sink |
| `RunResult.SessionResultsAccepted` | source/connector_lifecycle.go:258-269 | for every reachable session the reported outcomes are acceptable items iff no recorded sink rejection has a detail that NewConnectorSubmissionRejectedError refuses |
| `JsonNumber.NaturalInjective` | source/connector_lifecycle.go:856-868 | digit strings without leading zeros are determined by their value |
| `JsonNumber.NormalFormOf` | source/connector_lifecycle.go:856-875 | stripping the zeros at both ends of the digits and adjusting the exponent yields the normal form of the token's number |
| `JsonNumber.ParseNumberCorrect` | source/connector_lifecycle.go:837-875 | every spelling of a JSON number parses, to the normal form of the rational number it denotes |
| `JsonNumber.NormalFormUnique` | source/connector_lifecycle.go:822-828 | two normal forms agree iff they stand for the same number, zero having one sign |
| `JsonNumber.EqualConnectorNumbers` | source/connector_lifecycle.go:813-828 | two tokens compare equal iff they denote the same rational number, for any digit count and exponent |
| `Json.ConnectorObjectMembers` | source/connector_lifecycle.go:765-791 | fails exactly on a repeated name, otherwise tabulates exactly the members |
| `Json.EqualConnectorObjects` | source/connector_lifecycle.go:719-742 | true iff both objects mean the same unordered set of named values, for any order of iteration |
| `Json.EqualConnectorArrays` | source/connector_lifecycle.go:744-763 | true iff both arrays mean the same list of values |
| `Json.EqualConnectorJson` | source/connector_lifecycle.go:691-717 | errs exactly on invalid texts, otherwise decides equality of meaning; terminates on the size of the left value |
| `Json.MemberOrderIrrelevant` | source/connector_lifecycle.go:719-742 | permuting an object's members does not change its meaning, hence no comparison |
| `Json.EqualConnectorCheckpoints` | source/connector_lifecycle.go:147-161 | errs exactly on invalid checkpoints, otherwise true iff both absent or both present with the same meaning; absence differs from null |
| `SchemaDialect.WalkerIsExact` | source/accepted_observation.go:173-255 | accepts iff no path of schema-bearing keywords reaches the root or an identified subschema whose `$schema` is not one of the two allowed URLs |
| `SchemaDialect.AnnotationsIgnored` | source/accepted_observation.go:194-214 | deleting everything outside schema positions, `$schema` and `$id` never changes the verdict |
| `Manifest.NormalizedIsSafe` | source/definition_manifest.go:418-505 | whatever a Go value normalises to is valid JSON and passes the raw-number check, including json.Number and raw values of any content |
| `FrozenSchema.NormalizeKeepsMeaning` | source/definition_manifest.go:418-491 | it also means exactly what the Go value stands for: same numbers, same members, same order |
| `FrozenSchema.FloatTokenDenotes` | source/definition_manifest.go:482-491 | the `.0` suffix keeps a float's number and makes its spelling distinct from an integer's |
| `Manifest.StreamIsSafe` | source/definition_manifest.go:507-527 | scanning the token stream visits every number at every depth |
| `Manifest.ValidateJsonNumbers` | source/definition_manifest.go:507-527 | accepts a complete text iff no name is repeated and every integer spelling is in the IEEE-754 safe range; of any other bytes it judges the tokens before the decoder stops |
| `FrozenSchema.RemoteReferenceExact` | source/definition_manifest.go:529-550 | a remote reference is reported iff some object at some path carries a string `$ref` or `$dynamicRef` that does not start with `#` |
| `Manifest.FrozenAgain` | source/definition_manifest.go:382-416 | freezing a frozen schema again succeeds and changes nothing |
| `FrozenSchema.SchemaAcceptedIff` | source/definition_manifest.go:382-416 | freezing raw JSON keeps a schema iff it is an object with unique names whose integers are below 2^53 in magnitude, whose numbers fit a double, and which has no remote reference, all at any depth |
| `FrozenSchema.NormalizesIff` | source/definition_manifest.go:418-505 | a Go value normalises iff every value in it, at any depth, is representable |
| `FrozenSchema.BuiltIff` | source/definition_manifest.go:151-191 | the constructor accepts bounded identities, at most 16 projections with distinct bounded keys, and acceptable schemas whose declaration has a digest, and nothing else |
| `Manifest.CheckProjectionManifests` | source/definition_manifest.go:223-232 | accepts exactly the lists of valid projection declarations with distinct keys |
| `Manifest.BuiltIsValid` | source/definition_manifest.go:151-244 | every manifest the constructor builds, from raw or Go schemas, passes its own Validate |
| `WireShapes.DeclarationMeans` | source/definition_manifest.go:321-356 | the digested declaration holds the name, the version, the source schema and every projection's key and schema in order, and nothing else |
| `WireShapes.FingerprintIdentifies` | source/definition_manifest.go:233-244 | for a digest that separates meanings up to number rounding, valid manifests have the same fingerprint iff they declare the same |
| `WireShapes.TamperingIsDetected` | source/definition_manifest.go:293-301 | two texts that parse under the same fingerprint declare the same |
| `WireShapes.ManifestPrints` | source/definition_manifest.go:313-343 | the printed manifest, member by member |
| `Manifest.RoundTrip` | source/definition_manifest.go:246-301 | parsing the marshalled form of a valid manifest gives back the same manifest |
| `Manifest.BuiltRoundTrips` | source/definition_manifest.go:151-301 | build, marshal, parse is the identity on built manifests |
| `Manifest.ParsedIsValid` | source/definition_manifest.go:293-301 | whatever parses is valid, so its fingerprint is the digest of the declaration it came with |
| `StrictParsing.ManifestLosesNothing` | source/definition_manifest.go:255-301 | a text that parses means exactly what the parsed manifest prints, a missing list of projections standing for an empty one |
| `StrictParsing.ManifestOrderIrrelevant` | source/definition_manifest.go:255-301 | texts that differ in the order of their members parse alike |
| `StrictParsing.ManifestDefaultIrrelevant` | source/definition_manifest.go:277-283 | omitting the projections is the same as an empty list |
| `Observation.CheckProjections` | source/observation.go:205-214 | accepts exactly the lists of valid projection values with distinct keys |
| `Observation.RoundTrip` | source/observation.go:249-342 | parsing the marshalled form of a valid observation returns it unchanged: absent description, null values, number tokens and projection order survive |
| `WireShapes.ObservationPrints` | source/observation.go:249-273 | the printed observation, member by member |
| `StrictParsing.ObservationBuiltIff` | source/observation.go:119-141 | the constructor accepts a bounded reference and version, an empty one standing for "1", a payload that repeats the envelope, and valid projections under distinct keys, and nothing else |
| `StrictParsing.PayloadIsEnvelope` | source/observation.go:218-247 | a payload is accepted iff its meaning repeats name, version, materialization and description of the envelope |
| `Observation.ParsedIsValid` | source/observation.go:277-342 | whatever parses is a valid observation |
| `StrictParsing.ObservationLosesNothing` | source/observation.go:275-342 | a text that parses means exactly what the parsed observation prints, an omitted version, materialization, description or list standing for its default |
| `StrictParsing.ObservationOrderIrrelevant` | source/observation.go:277-342 | texts that differ in the order of their members parse alike |
| `StrictParsing.ObservationDefaultIrrelevant` | source/observation.go:301-340 | omitting a defaulted member is the same as giving its default |
| `Admission.CompileProjections` | source/accepted_observation.go:91-103 | succeeds iff every projection schema is compilable; the table then holds each declared schema under its key and nothing else |
| `Admission.CompileAdmissionManifest` | source/accepted_observation.go:83-105 | succeeds exactly on valid manifests all of whose schemas compile |
| `Admission.MatchProjections` | source/accepted_observation.go:124-142 | equal counts and one-way membership decide that the supplied key set is exactly the declared one and that each value fits its schema |
| `Admission.ValidateAdmissionObservation` | source/accepted_observation.go:107-143 | accepts exactly the valid observations of this very definition, with exactly its projections |
| `Admission.AdmitObservation` | source/accepted_observation.go:42-51 | admits iff the manifest is valid, its schemas compile and no path in them reaches a foreign dialect, and the observation is of exactly this definition, its payload's meaning repeats its envelope and conforms, and its projections answer the declared ones one to one, text evidence naming its source |
| `Admission.MatchesPairOff` | source/accepted_observation.go:124-142 | matching projections pair off one to one, whatever their order |
| `PromptSpacing.PythonJsonSpacing` | inference/prompted.go:294-318 | the output is the input with one space behind each comma or colon that lies outside string literals, a literal running from a quote outside literals to the next quote not escaped by an odd run of backslashes |
| `PromptSpacing.ScanAgrees` | inference/prompted.go:297-312 | the two flags say exactly whether a position lies outside string literals, inside one, or behind an escaping backslash |
| `PromptSpacing.SpacingIsUndone` | inference/prompted.go:294-318 | deleting exactly the inserted spaces recovers the input |
| `PromptSpacing.SpacingKeepsStrings` | inference/prompted.go:294-318 | rescanning the output ends in the same state, string literals with their escapes are untouched, one character is added per separator |
| `PromptSpacing.OutputsAreWellSpaced` | inference/prompted.go:294-318 | in the output every comma or colon outside strings is followed by a space |
| `PromptSpacing.WellSpacedAreOutputs` | inference/prompted.go:294-318 | every text with that property is the output for exactly the text with those spaces removed |
| `Usage.FoldIsTotal` | inference/prompted.go:360-376 | k responses count k requests; for k at least 1 a token total is present iff every response reported it, and is the exact sum |
| `Generation.TranscriptShape` | inference/prompted.go:207-228 | request k carries 2k-1 messages alternating from user to user, the same instructions, and extends its predecessor |
| `Generation.TranscriptConverses` | inference/prompted.go:225-228 | message 2j-1 of a request is the answer to attempt j-1 with its identity, message 2j the feedback on its decoding error, message 0 the prompt |
| `Generation.Generate` | inference/prompted.go:189-231 | at most maxRequests calls, each repeating the conversation: prompt, then per failed attempt the model's answer under its identity and the feedback on it; the result is the first response that decodes, with the folded usage; a call error ends the run; the trailing panic is unreachable |
| `Embedding.ScaledNormBounds` | inference/embedding.go:216-228 | scaled entries lie in [-1,1], one has magnitude 1, the squared norm lies in [1, dimension], so the divisor is never zero |
| `Embedding.UnitNormalisation` | inference/embedding.go:200-233 | succeeds exactly on finite non-zero vectors of the right dimension; the squares of the result sum to 1 and it is a positive multiple of the input |
| `Embedding.NoNormalisation` | inference/embedding.go:213-215 | without normalisation every finite vector of the right dimension is returned as it is |
| `Embedding.CanonicalEmbedding` | inference/embedding.go:200-233 | succeeds iff the vector has the dimension, is finite and, for unit normalisation, not zero; returns it unchanged without normalisation, and otherwise a positive multiple whose squares sum to 1 |
| `Embedding.ScaleInPlace` | inference/embedding.go:223-227 | divides every component and returns the sum of the squares of the results |
| `Embedding.DivideInPlace` | inference/embedding.go:229-231 | divides every component |
| `EmbeddingBatches.ValidateBatch` | inference/embedding.go:175-198 | accepts exactly an answer that echoes the batch as documents with one canonicalisable vector per text, and returns their canonical forms in order |
| `EmbeddingBatches.Embed` | inference/embedding.go:145-173 | the calls are the batches in order up to the first failure; on success vectors and usage are those of all calls together |
| `EmbeddingBatches.BatchesTile` | inference/embedding.go:154-156 | the batches are non-empty, no longer than the batch size, all but the last full, and concatenate to the texts |
| `EmbeddingBatches.BatchesCount` | inference/embedding.go:154-156 | there are ceil(n / batchSize) of them |
| `EmbeddingBatches.CollectedIsMap` | inference/embedding.go:154-171 | over a pointwise transport the answers together are one map over all texts |
| `EmbeddingBatches.SuccessIsPointwise` | inference/embedding.go:154-171 | over a pointwise transport success depends on the texts alone, not on the batch size |
| `EmbeddingBatches.BatchingIsInvisible` | inference/embedding.go:145-173 | over a pointwise transport the result is canonicalisation mapped over the texts, whatever the batch size |
| `EmbeddingBatches.EmbedIsMap` | inference/embedding.go:145-173 | over a pointwise transport Embed succeeds iff every text has a canonical vector, and then returns the map with one request counted per batch |
| `EmbeddingBatches.EmbedProfile` | inference/embedding.go:145-198 | over a pointwise transport Embed succeeds iff every vector is acceptable for the profile, and returns them unchanged or, with unit normalisation, as positive multiples of squared norm 1 |
| `SourceWindow.ActivateSoundIff` | trigger/source_window.go:54-66 | a transition moves forward over one non-empty window bounded by watermark and limit, or does nothing, iff cursor plus limit fits 64 bits; otherwise the cursor becomes negative |
| `SourceWindow.OverflowExample` | trigger/source_window.go:61-61 | a concrete signal whose addition wraps around |
| `SourceWindow.BoundedSignalsFit` | trigger/source_window.go:30-38 | if the largest watermark plus the largest limit fits 64 bits, no addition of the run overflows, from any cursor |
| `SourceWindow.RunTiles` | trigger/source_window.go:54-66 | over any run the windows are non-empty and contiguous from the first cursor to the last; the cursor never falls nor passes the largest watermark |
| `SourceWindow.TilesCoverOnce` | trigger/source_window.go:54-66 | every position passed lies in exactly one window |
| `SourceWindow.WindowsRespectLimits` | trigger/source_window.go:61-65 | windows and signals ahead of the cursor correspond one to one, each window ending at its signal's watermark or limit, whichever is nearer |
| `SourceWindow.FixedWatermark` | trigger/source_window.go:54-66 | watermark H with limit L is reached in exactly ceil((H-cursor)/L) activations, each emitting one window; then nothing more is emitted |
| `WorkloadOverlay.MergeHeaders` | server/dependencies.go:436-448 | the nested loops, deleting from and inserting into the live map, compute the overlay for the order they happen to visit, and the order-free merge when the overlay's names are unique ignoring case |
| `WorkloadOverlay.OrderIrrelevant` | server/dependencies.go:440-447 | with case-insensitively unique overlay names every order of iteration gives the same headers |
| `WorkloadOverlay.OrderMatters` | server/dependencies.go:440-447 | without that, two orders give different headers |
| `WorkloadOverlay.MergedLookups` | server/dependencies.go:440-447 | a lookup ignoring case finds the overlay's value when present and otherwise the base's, and the merged names stay unique ignoring case |
| `WorkloadOverlay.CopySettings` | server/dependencies.go:449-456 | the live map ends with its old entries overridden by those of the source |
| `WorkloadOverlay.OwnModelInheritsNothing` | server/dependencies.go:387-406 | with a model of its own, or nothing to inherit, only the reranker's workload counts |
| `WorkloadOverlay.InheritsGeneration` | server/dependencies.go:387-406 | without a workload of its own the reranker has the generation's URL, headers and settings, with temperature 0 |
| `WorkloadOverlay.OverlayWins` | server/dependencies.go:422-458 | with both, the overlay's URL wins if it has one, its headers ignoring case and its settings by name |
| `WorkloadOverlay.CloneWorkload` | server/dependencies.go:408-420 | a new object with the same contents and maps of its own; every existing map keeps its contents |
| `WorkloadOverlay.OverlayWorkload` | server/dependencies.go:422-458 | without an overlay the base itself; otherwise the merged workload in a new object with maps of its own, whatever maps base and overlay share; every existing map keeps its contents |
| `WorkloadOverlay.ResolvedRerankWorkload` | server/dependencies.go:387-406 | the inherited and overlaid workload with temperature 0, in a new object with maps of its own, or nothing when nothing overrides the defaults; every existing map keeps its contents |

## Left out

- JSON text: tokenising, whitespace, escapes and nesting limits. Texts are trees with decoded strings and number tokens; a text that does not parse appears only as a malformed checkpoint or a broken schema text. Invalid UTF-8 has no counterpart in Dafny strings.
- Go values as schemas: `strconv` is taken to spell finite floats as JSON numbers, and a value the standard encoder would refuse beforehand is not told apart from one refused later.
- SessionProtocol.StepInv: sequence number and in-flight count are unbounded, the sink does not panic, a sink call is one step, and a nil session is not modelled.
- Errors keep the field they name; their wording, and which of several simultaneous errors a caller sees outside the session, is dropped.
- Context deadlines, tracing and clocks; cancellation is a free choice of a waiting Finalize.
- SHA-256 with RFC 8785 canonicalisation, the JSON Schema library, Markdown fences, the codecs and the provider transports are function parameters.
- Embedding.CanonicalEmbedding: components are exact reals and the square root is a parameter, so float rounding is not modelled.
- Usage.FoldIsTotal: token counts are unbounded integers.
- Generation.Generate: the instructions, schema text included, are a parameter; the timeout is not modelled.
- Case folding of header names is a parameter of the overlay.
- Cloning of byte slices and accessors that return copies: values are immutable here.
- HTTP server and client, generated API code, environment and file configuration, catalogues, skills and artifacts: composition and field checks.
