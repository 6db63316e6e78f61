# REST dynamic controller: a verified model

The REST dynamic controller keeps a Kubernetes custom resource and an external REST resource in step. It
reads and writes JSON documents along configured paths, builds requests from the custom resource, compares
what the API returns with what the resource asks for, and drives long-running operations across reconciles.
This project models the parts of it whose correctness is least visible in the code, and proves what those
parts promise. `dafny verify dfyconfig.toml` checks everything.

| file | models |
|---|---|
| `Json.dfy` | JSON documents as the controller holds them after decoding |
| `Nested.dfy`, `SegmentLaws.dfy`, `NestedLaws.dfy`, `PathLaws.dfy` | Get, Set and Remove along map keys, array indexes and `[?key=value]` predicates as functions of a document, and their laws |
| `InPlace.dfy` | the same operations on Go's maps and slices, in place, proved to compute those functions |
| `PathParsing.dfy`, `MalformedPaths.dfy` | the path parser, a printer it inverts, and what it refuses |
| `PathTemplate.dfy` | `{placeholder}` substitution in URL paths, and the check for what is left |
| `Unstructured.dfy`, `KeyPaths.dfy` | plain map access, and paths that are map keys only |
| `FieldMapping.dfy`, `ResponseLaws.dfy` | `NormalizeResponseBody`: resolve, write, lift, and what that comes to entry by entry |
| `CallConfig.dfy`, `MappingLaws.dfy` | `BuildCallConfig`: configuration, static values, spec, status, mappings, strip, and what the mappings come to one by one |
| `RequestLaws.dfy`, `SecretWiring.dfy` | what mappings and the strip of resolver sources leave in a request body, by location and by path; the wiring resolvers are for |
| `Reordering.dfy` | documents, and requests, that differ in the order of one array |
| `Comparison.dfy` | `CompareExisting`, `CompareAny`, `InferType` |
| `Schemas.dfy`, `Drift.dfy` | the schema walk behind `compareScope: updatable`, the projection, and which drift an update fixes |
| `Aliases.dfy` | alias tables: which values come back as they were sent, and which mapped fields keep drifting |
| `FindBy.dfy` | item matching, list extraction, the continuation-token paginator, the search with and without pages |
| `Polling.dfy` | operation handles, status classification, the blocking poll loop |
| `AsyncProtocol.dfy`, `ModelB.dfy`, `Scenarios.dfy` | the requeue-based async protocol, the Observe/Create/Update handlers over it, and their ordinary runs |
| `Witnesses.dfy` | inputs at which the conditions of the other files fail, or hold for a known wiring |
| `Finalizer.dfy`, `Deletion.dfy` | Delete, when it releases the finalizer, and deletions in between reconciles |

Code that works by steps is a method with the loops of the original, proved equal to a function of its
inputs; the laws are lemmas about that function. Where Go ranges over a map, the method takes the keys in an
arbitrary order (`:|`), so its contract says that the order does not matter.

## Assumptions

* `fmt.Sprintf("%v", x)` is any fixed function (`Printer`); reading a printed value back lexically is another
  (`Reader`). Where a law needs a number to print as its value it says so (`PrintsExactly`, `Readable`).
* A jq program is a fixed partial function. Case folding and the text of a float are parameters.
* Percent-encoding (RFC 3986, section 2.1) produces no braces.
* A JSON number no float64 can hold (`1e400`) is read as the text it is spelt with, as Go does after both
  conversions fail; a `JsonNumber` is one that a float64 holds.
* The runtime dispatcher reads the latest object, calls Observe, and calls Create or Update only when Observe
  said "absent" or "not up to date" without an error (`ModelB.Reconciler.Reconcile`).
* It calls Delete at any time, in any order with reconciles, until the finalizer is released.
* A persisted write either lands, is lost, or lands while its caller stops. Each write and call of each
  reconcile has an outcome of its own, so a run may break off between any two of them.

## Findings

Some things the source, its comments or its documentation suggest do not hold as stated. Each is proved here in
its exact form.

* The comment in `async_requeue.go` (lines 244-246) argues that the failure transition never leaves a
  not-found resource stuck as up to date. It can, in two ways. When the status write of the failure is lost and the
  verb then stops declaring async, the stale annotation is cleared with the condition still Pending
  (`StaleAnnotationHidesFailure`, reached from the start in `FailureHidden`). And when, with the condition still
  Pending from an earlier operation, an update waits for its operation and sees it fail, Update returns before any
  status is written (`restResources.go`, lines 697-702), and the next not-found get counts as settled (lines
  199-206; `WaitedFailureHidden`, with no write lost and no definition edited). `EveryRunIsSafe` shows these are the
  only ways, and that neither can happen while the definition keeps its async declarations and no verb waits.
* Deletion ignores a recorded operation. The comment in `restResources.go` (lines 878-886) names a create that never
  succeeded, or a lost status, as what leaves the delete path unresolved; a create still in flight does as well, and
  then the finalizer is released without a call and what the create makes stays (`CreationAbandoned`). `Live` says
  exactly when a release happens with an operation on record; it never does when no verb is requeued.
* Alias pairs are called bidirectional. Sending a text and reading it back gives that text exactly when its pair is the
  first with its API value, or it is in no pair (`RoundTripsExactly`); all texts survive only if every API value is a
  custom resource value too (`RoundTripsAlwaysExactly`), and then also the other way round (`BothWaysAlike`). With
  the one pair `enabled`/`on`, a resource that says `on` is read back as `enabled` (`ApiTextRewritten`) and drifts
  after every update (`MappedTextConverges`, `EchoedFieldConverges`).
* A page answered 404 ends a paginated search as "not found", although a further page was named, and Observe then
  creates the resource again (`SearchIsFlat`, `MissingPageIsNotFound`).
* `compareScope: updatable` is meant to report no drift that an update cannot fix. `UpdateConverges` gives the
  exact condition: a field the spec sets to nil while the status has a value is sent with the status's value
  and keeps drifting (`NilFieldDrifts`), and so does a value holding a fraction an int64 would cut off, or a text
  that reads as NaN.
* A resolved value does not always survive the strip of resolver sources: it does exactly when no source is found
  at or around it (`ResolvedValueIsSent`, `SecretStripped`), and it can be read by its own path exactly when none
  takes a key by which a predicate finds its element either (`ResolvedValueIsRead`, `TestedSecretLost`).
* Get after Set does not always return the value written: a write that changes the very key a predicate on
  the way tests makes the element unreachable (`GetAfterSet`, `WriteUnreadable`). The same holds for putting a
  removed value back (`SettingBackRestores`, `RemovalNotUndone`).
* One number does not always compare equal to itself: `5` and `+5.0` read as an int32 and an int64
  (`SameNumberCompares`, `SpellingsDiffer`).
* With `tokenIn: body` the paginator never finds a token, so only the first page is searched
  (`TokenInBodyStopsAtFirstPage`).

## Model

| member | source | states |
|---|---|---|
| SegmentLaws.IndexExactly | internal/tools/pathparsing/nested.go:12-31 | a segment is an array index exactly if it is the decimal text of an int, without a needless zero |
| SegmentLaws.PredicateExactly | internal/tools/pathparsing/nested.go:33-42 | and a predicate exactly if it is `?key=want` with a key that is not empty and holds no `=` |
| SegmentLaws.WriteBelowKey | internal/tools/pathparsing/nested.go:132-230 | a write goes on with the value at a key if that is an array and the next segment is one of these texts, or an object and it is not; else with a new container of that kind |
| SegmentLaws.KeyKeepsObject | internal/tools/pathparsing/nested.go:132-230 | any other segment, `01` included, is a key of the object there, which keeps its other keys, or of a new one |
| SegmentLaws.IndexReplacesObject | internal/tools/pathparsing/nested.go:132-230 | an index makes an array of what is not one, padded with nil, the object there being lost |
| SegmentLaws.FieldByKey | internal/tools/pathparsing/nested.go:81-289 | on an object any text is a key, for reading, writing and removing |
| SegmentLaws.ElementByIndex | internal/tools/pathparsing/nested.go:81-289 | on an array the decimal text of an index reads, writes and removes that element; a write past the end pads with nil |
| SegmentLaws.ElementByPredicate | internal/tools/pathparsing/nested.go:44-289 | `?key=want` reads, writes and removes the one object whose key prints as wanted |
| SegmentLaws.NoElement | internal/tools/pathparsing/nested.go:44-289 | if there is none the read is absent, the write refused, and the removal does nothing |
| SegmentLaws.SeveralElements | internal/tools/pathparsing/nested.go:44-289 | if there are two, read and write fail as ambiguous |
| SegmentLaws.OtherSegmentsFail | internal/tools/pathparsing/nested.go:91-289 | nothing else names an element |
| InPlace.MatchPredicate | internal/tools/pathparsing/nested.go:52-75 | the scan of the backing array finds what the specification finds: one element, none, or several |
| SetLaws.UniqueMatch | internal/tools/pathparsing/nested.go:44-75 | a predicate resolves if and only if one and only one element satisfies it |
| InPlace.GetNestedField | internal/tools/pathparsing/nested.go:81-116 | the cursor walk over maps and slices reads what the specification reads, with the same absent and error cases; what it finds is the value standing there, not a copy |
| InPlace.SetNested | internal/tools/pathparsing/nested.go:132-197 | writing maps and backing arrays in place builds the specified document; refused at any depth, every container reads as before, nils appended to spare capacity included |
| InPlace.Grow | internal/tools/pathparsing/nested.go:175-177 | appending nils, in place or into a copy, leaves the original slice readable and pads the new one |
| InPlace.RemoveNested | internal/tools/pathparsing/nested.go:243-289 | deleting keys and shifting elements down in place builds the specified document and reaches no new container |
| InPlace.SetNestedField | internal/tools/pathparsing/nested.go:124-130 | on success the same object stands for the written document; on any error, the empty path included, for the document it stood for |
| InPlace.RemoveNestedField | internal/tools/pathparsing/nested.go:236-241 | the object stands for the document without the value; an empty path changes nothing |
| Documents.Document.SetNestedField | internal/tools/pathparsing/nested.go:124-130 | the same for a document seen as a value, as the body transformations use it |
| NestedSteps.GetReadsItsLocation | internal/tools/pathparsing/nested.go:81-116 | a read finds a value exactly when its path resolves to a location, and then the value there |
| SetLaws.SetFailsExactlyOnBadPredicate | internal/tools/pathparsing/nested.go:132-197 | Set on an object fails if and only if some predicate segment meets an array in which it does not select exactly one element |
| SetLaws.GetAfterSet | internal/tools/pathparsing/nested.go:81-197 | Get after Set returns the written value if every predicate used still selects the element written, and is absent otherwise |
| SetLaws.GetReturnsWhatSetWrote | internal/tools/pathparsing/nested.go:81-197 | Get after Set, for paths whose predicates lead to a map key other than the one they test |
| Witnesses.WriteUnreadable | internal/tools/pathparsing/nested.go:81-197 | a write through `[?k=a]` to `k` itself, after which nothing is read there |
| SetLaws.SetChangesOnlyItsTarget | internal/tools/pathparsing/nested.go:132-230 | when no container is discarded a write changes its own location and, besides it, only adds nil padding |
| SetLaws.GetThroughPredicate | internal/tools/pathparsing/nested.go:81-116 | reading through predicates is reading through the indexes they resolve to |
| SetLaws.SetThroughPredicate | internal/tools/pathparsing/nested.go:132-197 | a successful write through predicates is the write through the indexes they resolve to |
| SetLaws.RemoveThroughPredicate | internal/tools/pathparsing/nested.go:245-289 | removing through predicates is removing through the indexes they resolve to |
| SetLaws.MatchFollowsPermutation | internal/tools/pathparsing/nested.go:44-75 | reordering an array moves the selected index with its element, and changes neither "none" nor "several" |
| SetLaws.PermutationKeepsReads | internal/tools/pathparsing/nested.go:91-101 | the order of the elements does not affect a read through a predicate |
| SetLaws.PermutationPermutesWrites | internal/tools/pathparsing/nested.go:153-192 | a write through a predicate into a reordered array gives the reordered result, or the same refusal |
| SetLaws.PermutationPermutesRemovals | internal/tools/pathparsing/nested.go:262-284 | the same for a removal; when the selected element itself is removed, what is left is permuted by what is left of the permutation |
| Reordering.ReadsAlike | internal/tools/pathparsing/nested.go:81-116 | the three again, for an array anywhere in a document: a read that goes past the array by predicate, or elsewhere, does not see its order |
| Reordering.WritesAlike | internal/tools/pathparsing/nested.go:132-197 | a write that does not address the array by index gives documents equal but for that array's order, or the same refusal |
| Reordering.RemovalsAlike | internal/tools/pathparsing/nested.go:245-289 | so does a removal; the array may lose the selected element, or move up with an element around it |
| RemoveLaws.RemovedIsAbsent | internal/tools/pathparsing/nested.go:236-289 | a removed map key reads as absent |
| RemoveLaws.RemoveChangesOnlyItsTarget | internal/tools/pathparsing/nested.go:245-289 | removing a map key changes no other location |
| RemoveLaws.RemoveDropsFromParent | internal/tools/pathparsing/nested.go:245-289 | removing takes the target, key or element, out of its parent container and nothing else |
| RemoveLaws.ArrayRemoveShifts | internal/tools/pathparsing/nested.go:262-284 | removing an array element moves every later element, with everything below it, down by one |
| RemoveLaws.SettingBackRestores | internal/tools/pathparsing/nested.go:132-289 | setting the old value back restores the document if and only if every predicate on the way still selects its element after the removal |
| RemoveLaws.OtherKeysSurvive | internal/tools/pathparsing/nested.go:132-289 | that condition holds when each predicate leads to a map key other than the one it tests |
| Witnesses.RemovalNotUndone | internal/tools/pathparsing/nested.go:132-289 | the same path removed, after which setting the old value back is refused |
| PathParsing.Parse | internal/tools/pathparsing/pathparsing.go:14-91 | the scanning loops compute the declarative parser, rejections included |
| PathParsing.ParseInvertsPrint | internal/tools/pathparsing/pathparsing.go:14-234 | parsing the dot-joined text of any non-empty list of segments returns the list, each segment bare, quoted in brackets, or a bracketed index or predicate, the bracket on its own or right after a name |
| MalformedPaths.LeadingDotsRead | internal/tools/pathparsing/pathparsing.go:60-150 | dots in front of a path belong to its first name; in front of a bracket they are refused |
| MalformedPaths.TwoDotsRefused | internal/tools/pathparsing/pathparsing.go:23-41 | two dots in a row after any well-formed path are refused, whatever follows |
| MalformedPaths.TrailingDotRefused | internal/tools/pathparsing/pathparsing.go:43-60 | so is a dot at the end of one |
| MalformedPaths.AdjacentBracketsRefused | internal/tools/pathparsing/pathparsing.go:154-175 | so are two brackets without a dot between them |
| MalformedPaths.MismatchedQuotesRefused | internal/tools/pathparsing/pathparsing.go:215-234 | so are two texts in different quotes in one bracket |
| MalformedPaths.QuoteBeforeBracketRefused | internal/tools/pathparsing/pathparsing.go:104-152 | and a quote in a name, a bracket following or not |
| PathTemplate.BuildPath | internal/tools/client/clienttools.go:35-39 | sequential replacement, in any order of the parameters, is simultaneous substitution |
| PathTemplate.ReplaceFills | internal/tools/client/clienttools.go:36-39 | one replacement fills exactly the placeholder of that name |
| PathTemplate.UnresolvedPathParams | internal/tools/client/builder/builder.go:117-134 | the index loop finds the unresolved placeholders the specification names |
| PathTemplate.UnresolvedOfTemplate | internal/tools/client/builder/builder.go:117-134 | on a template these are, in order, exactly the placeholders whose parameter is missing or empty |
| PathTemplate.UnfilledNames | internal/tools/client/builder/builder.go:117-134 | a name is among them if and only if it has a placeholder and its parameter is missing or empty |
| PathTemplate.ResolvedPathHasNoPlaceholder | internal/tools/client/builder/builder.go:117-134 | when none is reported, no brace remains after substitution |
| PathLaws.WritesCommute | internal/tools/pathparsing/nested.go:132-230 | two writes at paths that part at map keys, past predicates and indexes or not, commute, refusals included |
| PathLaws.RemovalsCommute | internal/tools/pathparsing/nested.go:236-289 | so do two removals, also when one path encloses the other |
| LocationLaws.RemoveMoves | internal/tools/pathparsing/nested.go:245-289 | a removal leaves every value not at, around or inside it whole, and later elements of its array one place up |
| LocationLaws.SetLeavesOthers | internal/tools/pathparsing/nested.go:132-230 | a write leaves alone every value not at, around or inside what it replaces, containers discarded elsewhere or not |
| PathLaws.RemovalKeepsRead | internal/tools/pathparsing/nested.go:81-289 | a removal does not change what is read, found or not, at a path it parts from, predicates included |
| PathLaws.WriteKeepsRead | internal/tools/pathparsing/nested.go:81-230 | nor does a write that discards no container, for what is found |
| PathLaws.RemovalTakesRead | internal/tools/pathparsing/nested.go:81-289 | nothing is read once a removal names the path, something it goes through, or a key that one of its predicates tests |
| PathLaws.WriteKeepsReads | internal/tools/pathparsing/nested.go:81-230 | a write past containers of the right kinds changes no read, found or not, at a path it parts from at map keys |
| FieldMapping.NormalizeResponseBody | internal/tools/fieldmapping/fieldmapping.go:65-107 | the three loops over the body compute the specified normalization, or fail when it does; what that is, the laws below say from the entries themselves |
| ResponseLaws.ResolvesTo | internal/tools/fieldmapping/fieldmapping.go:181-276 | an entry resolves to a move from the path in the response to the one in the custom resource, the anchor apart, with the default where nothing is read, else with the canonical form of the value, its alias, or its program's output; it is invalid exactly when one of these fails |
| ResponseLaws.EntryTakesEffect | internal/tools/fieldmapping/fieldmapping.go:65-264 | after normalization that value is read at the destination, and nothing at a source that no entry writes to |
| ResponseLaws.IdleEntryChangesNothing | internal/tools/fieldmapping/fieldmapping.go:181-243 | an entry that has no value to write, and does not fail, might as well not be there |
| ResponseLaws.FailsExactly | internal/tools/fieldmapping/fieldmapping.go:65-243 | normalization fails if and only if a document program fails, a default does not decode, a program fails, a value has no canonical form, or a write is refused |
| ResponseLaws.TransformRuns | internal/tools/fieldmapping/fieldmapping.go:109-151 | the document programs run one after another, each on the object the one before it gave |
| ResponseLaws.TransformFails | internal/tools/fieldmapping/fieldmapping.go:109-151 | they fail only where one of them does, or gives no object |
| ResponseLaws.RefusedWrite | internal/tools/fieldmapping/fieldmapping.go:84-95 | the writes fail only where one is refused on the body as the ones before left it |
| NormalizeLaws.NormalizedBody | internal/tools/fieldmapping/fieldmapping.go:77-106 | for paths with predicates and indexes too: each applicable entry's destination holds the value resolved from the body as the document transforms left it; every source that moved and is no destination is gone |
| NormalizeLaws.NormalizationEffects | internal/tools/fieldmapping/fieldmapping.go:84-106 | and every path that parts from those reads as before, when no container changes kind |
| NormalizeLaws.OrderlyKeyPaths | internal/tools/fieldmapping/fieldmapping.go:84-106 | for paths of map keys both hold exactly under the usual condition: no destination is a prefix of another, or on one line with a source but itself |
| NormalizeLaws.NormalizationIgnoresOrder | internal/tools/fieldmapping/fieldmapping.go:77-106 | every permutation of the entries gives the same body, or the same failure, when the destinations part at map keys and the sources are related |
| CallConfig.RequestConfiguration.ProcessFields | internal/tools/client/builder/builder.go:435-466 | for every iteration order of the fields the request becomes the same |
| CallConfig.BuildCallConfig | internal/tools/client/builder/builder.go:147-227 | the passes in place yield the specified request for every map order; what that holds, the laws below say from the mappings themselves |
| MappingLaws.LastMappingWins | internal/tools/client/builder/builder.go:229-372 | the last mapping with a value and a one-segment `inPath` gives that path parameter the text of its value, read, resolved or aliased, whatever else would give it one; the same for `inQuery` where `inPath` is empty |
| MappingLaws.EffectOf | internal/tools/client/builder/builder.go:318-380 | a mapping goes to the path, else to the query, else to the body, and to no two of them |
| MappingLaws.BodySources | internal/tools/client/builder/builder.go:147-227 | the body is that of the fields, with the values of the mappings that have neither path nor query written one after another, and the resolver sources stripped |
| MappingLaws.BodyMappingArrives | internal/tools/client/builder/builder.go:318-484 | the value of such a mapping is read at its path, if its write is accepted and nothing later writes or strips on the same line |
| MappingLaws.HeaderSources | internal/tools/client/builder/builder.go:147-175 | a header is the static one, else the configuration's; a cookie the configuration's |
| MappingLaws.StrippedSource | internal/tools/client/builder/builder.go:468-487 | the strip removes where a resolver's value was read from, the anchor apart |
| MappingLaws.SecretsAreNoted | internal/tools/client/builder/builder.go:318-336 | noted as sensitive are the texts resolved from secrets, and no others |
| MappingLaws.ValueSources | internal/tools/client/builder/builder.go:147-227 | a path or query value comes from the first of: last mapping with a value, static query (query only), configuration, spec, status |
| RequestLaws.UntouchedLocationsAreSent | internal/tools/client/builder/builder.go:147-227 | any value of the spec (of the status where the spec is nil), inside array elements too, that no mapping replaces and no source takes is in the body, moved up with its element if an earlier one is removed |
| RequestLaws.StripStays | internal/tools/client/builder/builder.go:472-484 | sources that end at a map key and part from a location leave the value there in its place |
| RequestLaws.UntouchedReadsAreSent | internal/tools/client/builder/builder.go:147-227 | a scalar read before the mappings, through predicates or not, is read in the request if and only if no source takes it |
| RequestLaws.SurvivesStrip | internal/tools/client/builder/builder.go:472-484 | a scalar at any location survives the strip if and only if no source, located at its turn, is at or around it |
| RequestLaws.ResolvedValueIsSent | internal/tools/client/builder/builder.go:318-484 | a value a mapping writes, through array elements or not, is in the request where it was written; a scalar if and only if no source is at or around it |
| RequestLaws.ResolvedValueIsRead | internal/tools/client/builder/builder.go:318-484 | and it is read at the mapping's own path if and only if no source names the path, something it goes through, or a key one of its predicates tests |
| RequestOrder.BuildIgnoresArrayOrder | internal/tools/client/builder/builder.go:147-227 | when mappings and sources address an array of the spec by predicate, reordering it at most reorders it in the body |
| SecretWiring.SecretRead | internal/tools/client/builder/builder.go:216-484 | a secret written to an array element found by predicate is read in the request if and only if its source does not take it |
| SecretWiring.SiblingSecretArrives | internal/tools/client/builder/builder.go:216-226 | so a secret written to `list[?key=want].value` and read from a sibling key of the element, as in `credentials[?type=password].valueSecretRef`, arrives |
| SecretWiring.TestedSecretLost | internal/tools/client/builder/builder.go:472-484 | and one read from the very key the predicate tests does not |
| Witnesses.SecretStripped | internal/tools/client/builder/builder.go:472-484 | a secret read from `spec.token` and written to `token.value` never reaches the request |
| Comparison.CompareAnyIsEquivalence | internal/tools/comparison/comparison.go:269-288 | symmetric and transitive; reflexive exactly on values that do not read as NaN |
| Comparison.SameNumberCompares | internal/tools/comparison/comparison.go:345-423 | two printed numbers compare equal if and only if they are one number and, where an int32 holds it, both or neither are readable only as a float |
| Witnesses.SpellingsDiffer | internal/tools/comparison/comparison.go:269-423 | `5` and `+5.0` are that number twice, and a resource with the one drifts from the other |
| Comparison.IntegersAndFloatsAgree | internal/tools/comparison/comparison.go:345-423 | an int64 and a float64 are the same exactly when their values are equal |
| Comparison.WordsCompare | internal/tools/comparison/comparison.go:345-423 | texts that are neither numbers nor keywords compare as they are written, and equal nothing else |
| Comparison.KeywordsCompare | internal/tools/comparison/comparison.go:395-405 | `true`, `false`, `null` and `nil`, in any case, equal the values they name and no number or word |
| Comparison.InfinitiesCompare | internal/tools/comparison/comparison.go:412-421 | the infinities equal themselves, and neither each other nor a number or word |
| Comparison.ExtrasIgnored | internal/tools/comparison/comparison.go:41-267 | keys that only one side has do not count, nor do elements the response has at the end; missing elements do |
| Comparison.CompareExisting | internal/tools/comparison/comparison.go:41-164 | equal without error if and only if the declarative agreement holds, in any key order; an error only where a container meets a value of another kind |
| Comparison.CompareSlices | internal/tools/comparison/comparison.go:178-267 | the same, elementwise, for an array against a prefix of the other |
| Schemas.UpdatableBodyPaths | internal/tools/client/clienttools.go:251-308 | the schema walk collects the texts of the leaf paths |
| Schemas.UpdatableExactly | internal/tools/client/clienttools.go:197-340 | a path is updatable if and only if it leads, property by property, to a schema that declares none, at most twenty levels down; what allOf declares counts, and goes before a property of the same name beside it |
| Schemas.UpdatablePaths | internal/tools/client/clienttools.go:197-308 | the updatable paths are prefix-free, and their heads are fields the request body declares |
| Drift.ProjectionIsPathwise | internal/controllers/helpers.go:71-92 | projecting never fails, and comparing the projection is comparing each path of it, one by one, whether or not one lies on the way of another; it meets a value of another kind exactly where one of the paths does |
| Drift.DriftIsPathwise | internal/controllers/helpers.go:33-92 | no drift is reported if and only if every updatable path of the spec agrees with the remote |
| Drift.DetectDrift | internal/controllers/restResources.go:366-407 | the verdict for each scope: the whole spec, the identifiers and status fields path by path, or the updatable paths, and no drift at all without an update verb; an error only where a map or an array of what is compared meets a value of another kind |
| Drift.CopyAgrees | internal/tools/deepcopy/deepcopy.go:10-59 | the projected copy agrees with its original if and only if it holds no fraction and nothing that reads as NaN |
| DeepCopy.NumbersCopied | internal/tools/deepcopy/deepcopy.go:10-59 | a copied number loses its fraction, towards zero, and becomes a text beyond int64 |
| Drift.UpdatableValuesAreSent | internal/tools/client/builder/builder.go:435-466 | every updatable value the spec provides is in the update's body, unchanged |
| Drift.StatusValueIsSent | internal/tools/client/builder/builder.go:458-464 | for a field the spec leaves nil while the status has a value, the update carries the status's |
| Drift.UpdateConverges | internal/controllers/restResources.go:372-393 | when the remote stores what the update carried, the next observation reports no drift if and only if the spec provides every value and each survives the copy |
| AliasLaws.RoundTripsExactly | internal/tools/fieldmapping/fieldmapping.go:246-264 | a text comes back as it was if and only if its pair is the first with its API value, or it is in no pair |
| AliasLaws.RoundTripsAlwaysExactly | internal/tools/fieldmapping/fieldmapping.go:246-264 | every text does if and only if all API values are custom resource values and every pair that decides what is sent is the first with its API value |
| AliasLaws.BothWaysAlike | internal/tools/fieldmapping/fieldmapping.go:246-264 | and then every text read first and sent afterwards does too |
| Witnesses.ApiTextRewritten | internal/tools/fieldmapping/fieldmapping.go:246-264 | the pair `enabled`/`on`: `on` comes back as `enabled` |
| MappedFields.ValueRoundTrips | internal/tools/fieldmapping/fieldmapping.go:246-264 | a value comes back as it was if and only if its text does and, if the table lists it, it is a text |
| MappedFields.CarriedUnlessTaken | internal/tools/client/builder/builder.go:318-484 | the request carries a mapped field if and only if no stripped source takes it |
| MappedFields.MappedFieldConverges | internal/controllers/restResources.go:346-393 | a field mapped out and back through one table, stored by the remote, shows no drift if and only if its value agrees with what comes back of it |
| MappedFields.MappedTextConverges | internal/controllers/restResources.go:346-393 | for texts, booleans and integers: if and only if the text that comes back reads as the one that was sent |
| MappedFields.EchoedFieldConverges | internal/controllers/restResources.go:346-393 | the same from end to end for a field that is the only mapping of its verb: built, echoed by the remote, normalized, compared |
| Witnesses.NilFieldDrifts | internal/controllers/restResources.go:372-393 | one nil field whose status has a value, drifting right after the update that the remote stored |
| Handles.ExtractOperationHandle | internal/tools/async/async.go:53-121 | a successful extraction is never empty |
| Handles.HandleInBody | internal/tools/async/async.go:53-121 | from the body it is the value at the path: a text as it is, an integer in decimal, nothing from null or a container |
| Handles.HandleInHeader | internal/tools/async/async.go:53-121 | from the headers it is the one of that name, if not empty |
| Handles.HandleThroughProgram | internal/tools/async/async.go:75-91 | with a program it is what that makes of the raw value |
| Polling.StatusClassified | internal/tools/async/async.go:158-171 | a status counts as listed in any case, and as a success if it is listed both ways |
| Polling.PollUntilTerminal | internal/tools/async/async.go:179-236 | success, failure and poll error exactly when the first poll that is not pending reports that, within the attempts and before the deadline or a cancellation |
| Polling.Interval | internal/tools/async/async.go:180-186 | for every integer, 64-bit wrap-around included, in (0, 60s] |
| Polling.ConfiguredInterval | internal/tools/async/async.go:180-186 | as configured from one second to sixty, sixty above, one by default |
| Polling.Attempts | internal/tools/async/async.go:187-193 | between 1 and 120 |
| Polling.ConfiguredAttempts | internal/tools/async/async.go:187-193 | as configured up to 120, ten by default |
| Polling.Total | internal/tools/async/async.go:199-205 | in (0, 30min]; the derived budget when that is under the cap and no timeout is set |
| Polling.ConfiguredTotal | internal/tools/async/async.go:199-205 | as configured up to half an hour; by default attempts times interval and request timeout, one interval more, and half an hour at most |
| Polling.DerivedBudgetSuffices | internal/tools/async/async.go:196-236 | with no timeout set and the derived budget under the cap, polls bounded by the request timeout never meet the deadline |
| Polling.FirstVerdictIsSeen | internal/tools/async/async.go:179-236 | under the same conditions the first listed status, if it comes within the attempts, decides: a success value for success, a failure value for failure |
| Polling.NoVerdict | internal/tools/async/async.go:208-236 | without a listed status within the attempts there is neither |
| AsyncProtocol.NoTriggerInFlight | internal/controllers/async_requeue.go:93-133 | no create or update is sent from the moment a handle is recorded until it is cleared |
| AsyncProtocol.TriggersAccountedFor | internal/controllers/restResources.go:525-540 | triggers sent = handles recorded + triggers whose handle was never persisted |
| AsyncProtocol.WhenFailureIsHidden | internal/controllers/async_requeue.go:208-259 | some state of a run is Pending, without a handle, after a failure, if and only if the run clears a stale annotation while Pending after that failure, or sees an operation that a call waits for fail while Pending |
| ModelB.Reconciler.ObserveViaRestAction | internal/controllers/observe_restaction.go:30-100 | a recorded operation always defers the delegated observation, which then neither calls nor writes; otherwise absence and drift are reported exactly when the composed result says so |
| ModelB.Reconciler.DriveAsyncRequeue | internal/controllers/async_requeue.go:208-265 | one poll: the handle is cleared, the condition moved to Unavailable and the reconcile ended early each exactly when the outcome and the fate of the writes call for it, every event allowed by the protocol |
| ModelB.Reconciler.ObserveExternal | internal/controllers/restResources.go:175-430 | absent and drifted are each reported if and only if the guards and the comparison say so; a Pending resource that is not found is settled and left alone |
| ModelB.Reconciler.Observe | internal/controllers/restResources.go:107-173 | create or update is asked for only without a handle; an operation in flight is left alone, a finished one cleared |
| ModelB.Reconciler.RecordAsyncOperation | internal/controllers/async_requeue.go:93-116 | it succeeds if and only if a handle can be extracted and is persisted; only the operation of the trigger just sent is recorded |
| ModelB.Reconciler.MutateViaRestAction | internal/controllers/mutate_restaction.go:30-52 | a delegated mutation records no handle; its status is persisted only if the RESTAction resolved |
| ModelB.Reconciler.FollowUp | internal/controllers/restResources.go:525-540 | after an accepted trigger the operation is recorded, waited for, or there is none; the mutation goes on exactly when that worked |
| ModelB.Reconciler.WaitFor | internal/controllers/async_handler.go:51-118 | an operation waited for is seen to succeed, to fail, or neither; the mutation goes on only with a response to show |
| ModelB.Reconciler.Mutate | internal/controllers/restResources.go:432-766 | Create and Update: whether the call is sent, then its operation waited for or its handle persisted, then the status, in that order, for every point at which the run may break off; and the condition it leaves: Pending if and only if the response is pending or the verb requeues, else Creating |
| ModelB.Reconciler.VerbLeaves | internal/controllers/restResources.go:525-602 | that condition, for a call whose answer is taken over |
| ModelB.Reconciler.RestActionLeaves | internal/controllers/mutate_restaction.go:30-52 | a delegated create leaves Creating and a delegated update Available |
| ModelB.Reconciler.NothingLeft | internal/controllers/restResources.go:432-766 | a mutation that breaks off before its last status write leaves the condition as it was |
| Scenarios.CallsExactly | internal/controllers/restResources.go:432-520 | a create or update is sent exactly when nothing it needs is missing, and then once |
| Scenarios.Play | internal/controllers/restResources.go:107-766 | with plain calls and no failures, any run of reconciles is a run of a machine of the Ready conditions: a missing resource is created unless Pending, one that differs is updated, one that agrees is Available |
| Scenarios.MissingIsCreated | internal/controllers/restResources.go:190-213 | in it a resource that stays missing is created at every reconcile up to the first create answered as pending |
| Scenarios.PendingIsLeftAlone | internal/controllers/restResources.go:199-206 | and never again from then on |
| Scenarios.PendingCreateIsAwaited | internal/controllers/restResources.go:199-206 | after a create answered 202 every reconcile that does not find the resource is settled, leaves it Pending and sends nothing |
| Scenarios.UnobservableIsCreatedOnce | internal/controllers/restResources.go:230-262 | a resource with no get that validates and no findby is created once and Available from then on |
| Scenarios.RequeuedCreate | internal/controllers/restResources.go:107-766 | a requeued create is triggered once, Pending for as many polls as it takes, and Available after the comparison |
| ModelB.Reconciler.Reconcile | internal/controllers/restResources.go:107-766 | one Observe and what it asks for: exactly which operation is on record afterwards, and exactly when a stale annotation is dropped or a failure waited for while Pending |
| ModelB.Reconciler.EveryRunIsSafe | internal/controllers/restResources.go:107-766 | over any sequence of reconciles from the start: the safety properties; and a failure is hidden if and only if one reconcile loses the write that reports it and a later one, still unreported, drops the annotation as stale, or one waits while Pending for an operation that fails; neither happens while the async declarations stay and no verb waits |
| ModelB.Reconciler.DriveToCompletion | internal/controllers/async_requeue.go:218-263 | an operation over after n more polls is cleared by the (n+1)-th Observe; after a success, a Pending resource is reported absent if and only if no get validates and no findby exists |
| ModelB.Reconciler.StaleAnnotationHidesFailure | internal/controllers/async_requeue.go:209-216 | the run that hides a failure in the first way |
| Witnesses.FailureHidden | internal/controllers/async_requeue.go:209-216 | that run from the very start: a recorded create, a lost failure, an edited definition |
| Witnesses.WaitedFailureHidden | internal/controllers/restResources.go:684-702 | the second way, from the very start, nothing lost and nothing edited: a create that succeeds, an update that waits and fails, a resource gone and counted as settled |
| ModelB.HandlesAreNonEmpty | internal/tools/async/async.go:91-121 | no run ever persists an empty handle |
| Finalizer.ExternalResourceStillExists | internal/controllers/mutate_restaction.go:70-88 | gone exactly when there is no usable get or it answers not found |
| Finalizer.DriveAsync | internal/controllers/async_handler.go:51-94 | succeeds exactly when a handle can be extracted and its operation is seen to succeed |
| Finalizer.Delete | internal/controllers/restResources.go:768-937 | the finalizer is released if and only if one of the named exits holds, and what was done to the external resource by then |
| Finalizer.DeleteUntilReleased | internal/controllers/restResources.go:768-937 | retried, it is released if and only if some attempt meets such an exit, at the first one that does |
| Deletion.HandleIsInFlight | internal/controllers/async_requeue.go:60-133 | over reconciles and deletions in any order, an operation is on record if and only if some turn recorded it and none since has cleared or dropped it |
| Deletion.Live | internal/controllers/restResources.go:768-937 | the first deletion that meets an exit releases the finalizer, with an operation on record exactly then, and without a call exactly at the exits that make none; never with one on record when no verb is requeued |
| Witnesses.CreationAbandoned | internal/controllers/restResources.go:878-900 | from the start: a recorded create, then a deletion that releases the finalizer without a call |
| Matching.FindsFirstMatch | internal/tools/client/restclient.go:572-601 | the search of a list returns its first match, and nothing if and only if there is none |
| Matching.FindItemInList | internal/tools/client/restclient.go:572-601 | the loop is that search |
| Matching.MatchesAnd | internal/tools/client/restclient.go:603-645 | with policy "and" an item matches if and only if every identifier that names a field is in it with the value the resource has in its spec or status |
| Matching.MatchesOr | internal/tools/client/restclient.go:603-672 | with policy "or" if and only if some identifier is, none before it being unreadable in the resource |
| Matching.ExtractItemsFromResponse | internal/tools/client/restclient.go:537-568 | the items of a body with at most one list, in any key order; with several, one of them |
| FindBy.ContinuationTokenPaginator.UpdateRequest | internal/tools/pagination/continuation_token.go:32-52 | the first request carries no token, a later one the last token read |
| FindBy.ContinuationTokenPaginator.ShouldContinue | internal/tools/pagination/continuation_token.go:55-81 | the search goes on exactly when the response names a token |
| FindBy.FindBy | internal/tools/client/restclient.go:253-326 | the loop is the page-by-page search of the chain; each request carries the previous response's token, and none is sent after the matching page |
| FindBy.SearchIsFlat | internal/tools/client/restclient.go:281-326 | that search is the search of the concatenated pages: an item if it has one, else not found if and only if the chain ends with its last page or with a page answered 404, else an error |
| Witnesses.MissingPageIsNotFound | internal/tools/client/restclient.go:281-326 | two pages, the second answered 404: not found, though its items were never seen |
| FindBy.CallFindBySingle | internal/tools/client/restclient.go:329-351 | without pagination: not found if and only if the call is answered 404, the body is empty, or no item of it matches |
| FindBy.SingleIsOnePage | internal/tools/client/restclient.go:281-351 | that is the search of a single page, but for the empty body |
| FindBy.TokenInBodyStopsAtFirstPage | internal/tools/pagination/continuation_token.go:62-80 | with the token in the body only the first page is searched |

## Left out

- Documents.Document: sees a document as a value, so sharing between a request body and the custom resource, or between two places of one body, is not modelled above `InPlace`.
- InPlace.SetNestedField: assumes containers that are each reached once, and a value that shares none of them.
- Error messages, logging, events and tracing; errors carry at most a kind.
- HTTP transport, authentication, redaction, cookies and headers beyond their place in the request.
- The splitter library behind the path parser is specified by its configuration (split on dots outside quotes and brackets); segments containing NUL, which the original uses in its path keys, are not told apart from separators there.
- Path cleaning and query encoding after placeholder substitution.
- IEEE rounding: a number is a real; converting the float 2^63 itself to an integer is not modelled.
- Schemas are finite trees walked as values; cyclic schemas, on which the allOf walk of the original has no bound of its own, are not modelled.
- The comparison of identifiers inside a list item is a parameter of the search.
- Matching.ExtractItemsFromResponse: for an object with several lists it says only that one of them is taken, because the original takes whichever key comes first.
- FindBy.FindBy: assumes the chain of pages is finite and no page has several lists.
- The contents of status: which fields are populated or cleared, and the composed status of a delegated observation; only the Ready condition takes part in the protocol.
- The poll request's parameters, the requeue configuration of a delete, and secret RBAC provisioning.
- Definition lookup, the file getter, caches and main.
