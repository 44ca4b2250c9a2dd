# Kandev protocols, codecs and repository checks in Dafny

This project models the parts of Kandev whose correctness depends on state, ordering or exact
counting, and proves what they are for.

- **Plugin call origins** (`Contexts`, `CallRouting`, `CallOrigins`, `CallOriginsInvariants`,
  `CallOriginsTheorems`, `PluginCallTable`). Every host-to-plugin invocation binds a fresh reference;
  callbacks and event deliveries resolve references against a live table and run in the context of
  the invocation. The protocol is a step system in which lookup, checks, AfterFunc registration,
  unlisting, cancellation, propagation, emission and delivery are separate steps of any number of
  concurrent activities. The theorems are about every execution. `PluginCallTable` holds the
  sequential code as classes and ties it to the steps.
- **Artifact streams** (`ArtifactDescriptor`, `ArtifactStream`, `ArtifactRetries`). The chunk validator
  as a class, refined by a declarative law of whole streams of any length; the NUL-joined descriptor
  and exactly when it is ambiguous; and, for providers that go on after an error, exactly when a
  completed transfer still forwards what it declares.
- **Architecture lint** (`Regex`, `Semver`, `ArchitectureModel`, `CompatibilityLedger`,
  `BaselineRatchet`, `AnnotationOutput`). Ledger validation, baselines and growth checks as the tool's
  loops, each proved to report exactly what it should; conservation on a clean run; the ratchet over
  a history of commits; the version and identifier patterns as regular expressions; annotations.
- **Specification tools** (`PythonText`, `SpecMetadata`, `SpecCorpus`, `SpecIdentifiers`, `SizeRatchet`,
  `SpecLinter`, `DecisionListing`). The frontmatter parser, identifiers and their defining lines, the
  agreement of linter and catalog, corpus integrity, migrations, frozen size ceilings over revisions,
  the whole lint run, the decision listing.
- **Directory browser** (`DirectoryBrowser`, `Breadcrumbs`). The request-generation protocol under any
  order of renders, effects, navigation and responses; breadcrumbs of POSIX, drive and UNC paths.
- **Workspace administration codec** (`WorkspaceAdmin`). The nine-way encoder and decoder with nil and
  empty slices told apart.

What the main results compare against is pinned too: digests, digits, splitting, classification, field
issues and sort keys have laws that spell out their results in other terms, such as
`HexEncodeIsPositional`, `CleanMeans`, `MetadataInOrderIff`, `ClassifiedBy`, `DriveIff` and
`NormalisationIsFull`.

`Wrappers` holds `Option` and `Result`, `Strings` numerals and splitting. Check everything with
`dafny verify dfyconfig.toml`.

Some results are about the limits of the code; each comes with the exact condition.

- Within a block of 2^32 chunks the descriptor of a transfer can change exactly when an inner
  NUL-separated component of the block's first version reads as a decimal (`DescriptorIsStable`,
  `DescriptorCanChangeIff`, `DescriptorChangeWitness`).
- The chunk index is 32 bits wide. A run of any length keeps its first descriptor exactly when the
  head of every later block repeats its encoding (`FirstDescriptorKeptIff`,
  `IndexWrapReplacesDescriptor`).
- Chunks are counted before they are checked and the transfer is complete before its final chunk is
  sent. A provider that ignores errors still forwards what it declared exactly when no chunk with
  bytes was refused after counting (`PromiseKeptIff`, `IgnoredErrorBreaksThePromise`,
  `UnsentFinalChunkCompletes`).
- The specification linter stops with a Python error exactly when a size in the exception catalog has
  more digits than Python reads, or a versioned system page gives its migration as a list
  (`LintSpecs`); the metadata contract accepts some such pages (`AcceptedPageCanAbort`).
- The parser's error for fields that mix scalar and list values can never be reported
  (`MixedFieldIsUnreachable`).

## Model

| member | source | states |
|---|---|---|
| `Contexts.ExtendsKeepsValue` | pluginsdk/call_context.go:135-145 | a value of a context survives every derivation, through cancel contexts, other values and caller wrappers, that does not rebind its key |
| `Contexts.MergeKeepsAll` | pluginsdk/call_context.go:164-179 | under every metadata key the base values come first and the appended ones follow in order |
| `CallRouting.OnlyPrivateReferenceReachesHost` | pluginsdk/call_context.go:164-179 | whatever a plugin puts in its metadata, the host sees the private handler reference and nothing else, or no reference at all |
| `CallRouting.CallbackPresentsItsInvocation` | pluginsdk/call_context.go:27-42 | from host invocation through the plugin handler and any context derived from it, a callback presents exactly the one reference minted for that invocation, and the handler's own metadata no longer shows it |
| `CallRouting.CallsKeepTheRest` | pluginsdk/call_context.go:80-179 | binding a call sends exactly its one reference, and binding and calling back keep every other metadata entry of the caller and every other value of its context |
| `CallRouting.HandlersKeepTheRest` | pluginsdk/call_context.go:27-42 | a plugin handler keeps every other metadata entry and value, and its context is left alone exactly without a single nonempty reference |
| `CallRouting.RestoredValues` | pluginsdk/call_context.go:131-145 | in a restored context every key has the origin's value, or the arriving call's where the origin has none; only the host-call reference is its own |
| `CallRouting.IdentityUnderNesting` | pluginsdk/call_context.go:131-145 | at any depth of host-plugin-host nesting a root value that host code does not rebind is still the root's, and the host-call reference is the innermost one |
| `CallOriginsInvariants.InvStep` | pluginsdk/call_context.go:66-133 | every step keeps: exact tables, no lost and no spurious cancellation, well-formed activities, events, invocations and wired contexts |
| `CallOriginsInvariants.InvAlways` | pluginsdk/call_context.go:66-133 | every state of every execution satisfies that invariant |
| `CallOriginsTheorems.LiveExactlyTheUnreleased` | pluginsdk/call_context.go:76-88 | in every reachable state the tables hold exactly the bound and unreleased references, each under its connection and with its own origin |
| `CallOriginsTheorems.AdmissionNeedsLiveOrigin` | pluginsdk/call_context.go:99-133 | a caller-required handler runs only after an earlier lookup found its single reference live and a later check found that origin neither cancelled nor unidentified; it runs in that origin's restored context |
| `CallOriginsTheorems.ReleasedNeverResolves` | pluginsdk/call_context.go:83-88 | once taken off its table a reference resolves to nothing in every later lookup, by callback or by event, on any connection |
| `CallOriginsTheorems.CallbackResolvesToItsInvocation` | pluginsdk/call_context.go:107-118 | a callback made from a handler context of an invocation resolves to that invocation's origin or to nothing, whatever has happened meanwhile |
| `CallOriginsTheorems.ClosedIffCaused` | pluginsdk/call_context.go:127-130 | when nothing is pending, a node is closed exactly if an explicit cancel call reaches it along registered propagations |
| `CallOriginsTheorems.ReleaseCancelsDescendants` | pluginsdk/call_context.go:73-88 | when nothing is pending, every context derived from a released invocation's origin has failed, at any depth of nested callbacks, deliveries and invocations, whichever of cancel and AfterFunc registration came first |
| `CallOriginsTheorems.RunningDescendsFromItsOrigin` | pluginsdk/call_context.go:127-132 | the context of every running resolved activity is derived from its invocation's origin, so cancellation covers it |
| `CallOriginsTheorems.RunningSees` | pluginsdk/call_context.go:127-145 | in every reachable state a resolved callback sees its own reference, a resolved activity every other value of its origin and the arriving call's where the origin has none, and an unresolved one what it arrived with, marked unless its method is exempt |
| `CallOriginsTheorems.UnidentifiedForTheRestOfTheChain` | pluginsdk/event_origin.go:8-43 | along a chain of emissions and deliveries of any length, after one event emitted under a missing or dead reference every later delivery is unidentified and no caller-required call under its reference ever runs |
| `CallOriginsTheorems.DeliveryTaintsWhatItSetsOff` | pluginsdk/event_origin.go:19-43 | every invocation bound at any later time on any context derived from such a delivery's, labelled as its delivery or not, is unidentified and no caller-required call under its reference ever runs |
| `CallOriginsTheorems.IdentityInEveryState` | pluginsdk/call_context.go:131-145 | in every reachable state, at any depth of callbacks in progress, a root value that host code does not rebind is still the root's and the host-call reference is the innermost one |
| `CallOriginsTheorems.PendingWorkSettles` | pluginsdk/event_origin.go:37-42 | from every state some firing of pending work reaches a quiescent state, so maximal firings exist |
| `CallOriginsTheorems.EveryFiringSettles` | pluginsdk/call_context.go:127-130 | in whatever order due propagations and half-done releases are taken, there are at most as many as links still open and releases half done, and a firing can take no further step exactly when its state is quiescent |
| `CallOriginsTheorems.NothingEffectiveIffQuiescent` | pluginsdk/event_origin.go:37-42 | nothing is left to fire exactly when no propagation is due and no delivery is half released |
| `CallOriginsTheorems.EveryMaximalFiringCancels` | pluginsdk/call_context.go:83-131 | from every reachable state with a released invocation, after every maximal firing, in any order, each context derived from its origin has failed |
| `PluginCallTable.ContextRuntime.Follow` | pluginsdk/call_context.go:128-128 | a follower of a closed node closes at once, any other is linked |
| `PluginCallTable.ContextRuntime.WithCancel` | pluginsdk/call_context.go:73-73 | a cancel context gets a new node that follows its parent |
| `PluginCallTable.PluginCallOrigins.constructor` | pluginsdk/call_context.go:57-60 | a new connection has an empty table |
| `PluginCallTable.PluginCallOrigins.Bind` | pluginsdk/call_context.go:66-83 | fails exactly for a failed context or a policy refusal, changing nothing; else lists a new origin and sends its reference |
| `PluginCallTable.PluginCallOrigins.Release` | pluginsdk/call_context.go:83-88 | unlists the reference and closes the origin's node |
| `PluginCallTable.PluginCallOrigins.Attach` | pluginsdk/call_context.go:127-128 | the call context follows both the arriving context and the origin |
| `PluginCallTable.PluginCallOrigins.Intercept` | pluginsdk/call_context.go:99-132 | whatever the table of exempt methods holds, emitting an event always proceeds, around the presented origin exactly if the single nonempty reference is listed and its node open, and unidentified otherwise; every other exempt method proceeds as it came; any other method proceeds exactly around a listed, open and identified origin; both propagations are registered only around an origin |
| `PluginCallTable.PluginCallOrigins.EventOriginContext` | pluginsdk/event_origin.go:27-43 | always proceeds: around the emitter's origin exactly if its reference is listed and its node open, with no reference of its own, and unidentified otherwise |
| `PluginCallTable.PluginCallOrigins.Finish` | pluginsdk/call_context.go:129-130 | ends with the call context closed and no longer linked to the origin |
| `PluginCallTable.UndisturbedDecides` | pluginsdk/call_context.go:99-133 | the sequential decision and the protocol's separate steps agree for every activity that runs without interleaving |
| `PluginCallTable.StepsUpdateOneTable` | pluginsdk/call_context.go:76-88 | binding and unlisting change one connection's table as the methods do, and no other step changes any table |
| `PluginCallTable.ReleaseTakesTwoSteps` | pluginsdk/call_context.go:83-88 | every bound invocation can be released, once: its reference leaves the table before its origin is cancelled, and both together do what the release does |
| `PluginCallTable.FinishTakesTwoSteps` | pluginsdk/event_origin.go:37-42 | every running activity can end, once: a callback cancels before it stops following and a delivery after, and both together do what the end of a call does |
| `PluginCallTable.EventsCanBeDelivered` | pluginsdk/event_origin.go:8-43 | a running emission can publish any number of events, and each can be delivered later, any number of times, under the reference its emitter ran with |
| `PluginCallTable.CallbacksAreFree` | pluginsdk/call_context.go:99-107 | in any state a callback of any class can arrive with any metadata, and contexts can be made, derived and closed after their parents |
| `ArtifactDescriptor.NulFreeDigestsAgree` | pluginsdk/executor_provider.go:379-381 | equal encodings with NUL-free digests mean equal descriptors, whatever the versions hold |
| `ArtifactDescriptor.AmbiguousIff` | pluginsdk/executor_provider.go:379-381 | another descriptor has the same encoding exactly when an inner component of the version is a uint64 decimal |
| `ArtifactDescriptor.NulFreeVersionPins` | pluginsdk/executor_provider.go:379-381 | a NUL-free version and digest are pinned by the encoding together with the total |
| `Strings.DecimalReadsBack` | pluginsdk/executor_provider.go:379-381 | the decimal numeral of the total is worth the total and has no leading zero |
| `ArtifactStream.Validator.constructor` | pluginsdk/executor_provider.go:302-304 | starts with nothing counted, hashed or forwarded |
| `ArtifactStream.Validator.CaptureDescriptor` | pluginsdk/executor_provider.go:338-354 | the descriptor is captured exactly when it is valid and untouched otherwise |
| `ArtifactStream.Validator.AcceptChunk` | pluginsdk/executor_provider.go:306-326 | the whole new state and error for any chunk, nil included, in any state; forwards exactly the accepted chunks |
| `ArtifactStream.Validator.AcceptNext` | pluginsdk/executor_provider.go:306-326 | after a valid prefix a chunk is accepted exactly when the longer prefix is valid and the send succeeds |
| `ArtifactStream.Validator.AcceptAll` | pluginsdk/executor_provider.go:281-284 | a run of any length up to the first error has no error exactly when all chunks form a valid prefix and every send succeeds; what was forwarded is a valid prefix in any case |
| `ArtifactStream.Validator.Serve` | pluginsdk/executor_provider.go:281-288 | a run of any length completes exactly when its chunks are a valid stream and every send succeeds, and then all of them were forwarded |
| `ArtifactStream.HexEncodeIsPositional` | pluginsdk/executor_provider.go:365-365 | digits 2i and 2i + 1 of the encoded digest are lower-case, the high half first, and worth byte i, and there are no others |
| `ArtifactStream.ValidDigestIff` | pluginsdk/executor_provider.go:345-350 | a declared digest is valid exactly when it is 64 hexadecimal digits of either case |
| `ArtifactStream.RefusalsAre` | pluginsdk/executor_provider.go:306-373 | in any state of the validator a chunk is refused for the first of its eleven faults and accepted exactly without one, counting modulo 2^64 |
| `ArtifactStream.ChunkAccepted` | pluginsdk/executor_provider.go:306-326 | one step of the refinement between validator states and valid prefixes |
| `ArtifactStream.StreamIsFinishedPrefix` | pluginsdk/executor_provider.go:306-377 | the declarative law (32-bit indices, bounds, one encoding per block, last chunk final, strict prefixes, exact length and digest of the last block's head) is the incremental one plus a final chunk |
| `ArtifactStream.ShortStreamIsOneBlock` | pluginsdk/executor_provider.go:306-377 | up to 2^32 chunks the law is: indices 0 to n-1, one descriptor encoding, every proper prefix shorter than the declared total, exactly that total and lowercase digest |
| `ArtifactStream.DescriptorIsStable` | pluginsdk/executor_provider.go:310-317 | unless the version of its block's first chunk has an inner decimal component, every accepted chunk has that chunk's version, total and digest |
| `ArtifactStream.FirstDescriptorKeptIff` | pluginsdk/executor_provider.go:310-324 | over a run of any length every encoding is the first one exactly when every later block's head repeats it, and likewise every descriptor if the first version has no inner decimal |
| `ArtifactStream.CompleteStreamKeepsItsPromise` | pluginsdk/executor_provider.go:364-377 | a complete stream has the length and lowercase digest that its last block's head declares, its final chunk repeats that descriptor whatever the version holds, and it is the first chunk's descriptor exactly when that head repeats the first encoding |
| `ArtifactStream.DescriptorCanChangeIff` | pluginsdk/executor_provider.go:315-317 | at every point inside a block some next chunk with a different descriptor is accepted exactly when the version of the block's first chunk has an inner decimal component |
| `ArtifactStream.DescriptorChangeWitness` | pluginsdk/executor_provider.go:379-381 | a first chunk with version v, NUL, 5 and an accepted second one of version v and five bytes |
| `ArtifactStream.IndexWrapReplacesDescriptor` | pluginsdk/executor_provider.go:310-324 | a valid run of 2^32 empty chunks and one more whose head does not repeat the first encoding and replaces it |
| `ArtifactRetries.AcceptRegardless` | pluginsdk/executor_provider.go:281-288 | the validator's state after any calls whose errors are ignored is the ledger's state, and completion is its final flag |
| `ArtifactRetries.KeptAlways` | pluginsdk/executor_provider.go:306-377 | after any calls the size is the bytes forwarded plus the bytes counted but refused, in 64 bits; without such bytes the hash covers exactly what was forwarded; a completed transfer closes under the descriptor in force |
| `ArtifactRetries.PromiseKeptIff` | pluginsdk/executor_provider.go:281-288 | a completed transfer forwards exactly the length and digest its closing chunk declares if no chunk with bytes was refused after counting, and only then unless 2^64 bytes or more were lost |
| `ArtifactRetries.LengthKeptIff` | pluginsdk/executor_provider.go:356-373 | for all calls whatever, the length is as declared exactly when the lost bytes are a multiple of 2^64 and the forwarded ones fewer than 2^64 |
| `ArtifactRetries.IgnoredErrorBreaksThePromise` | pluginsdk/executor_provider.go:356-360 | two calls that lose bytes to an oversized chunk and complete a transfer shorter than declared |
| `ArtifactRetries.UnsentFinalChunkCompletes` | pluginsdk/executor_provider.go:318-323 | one call whose final chunk cannot be sent completes a transfer that forwarded nothing |
| `Semver.PatternIsTheGrammar` | scripts/architecture_lint/compatibility.py:16-25 | the regular expression matches exactly the texts of sections 2, 9 and 10 of Semantic Versioning 2.0.0, and the left-to-right recogniser decides it |
| `Semver.RenderedPartsAreUnique` | scripts/architecture_lint/compatibility.py:16-25 | core, prerelease and build of a version text are determined by the text |
| `CompatibilityLedger.StableIdIff` | scripts/architecture_lint/compatibility.py:26-26 | the identifier pattern matches exactly texts that start and end alphanumerically and otherwise hold dots, underscores and hyphens |
| `ArchitectureModel.Tally` | scripts/architecture_lint/compatibility.py:72-77 | the counters hold each value's number of occurrences |
| `ArchitectureModel.OccursAgainIff` | scripts/architecture_lint/compatibility.py:94-97 | a value is counted more than once exactly when another position holds it |
| `ArchitectureModel.LastIsRegistrable` | scripts/architecture_lint/compatibility.py:138-139 | the finding kept for a declaration is one of its unambiguous findings, and none is kept only if there is none |
| `CompatibilityLedger.CleanIff` | scripts/architecture_lint/compatibility.py:80-108 | an entry has no diagnostic exactly when its identifier, texts, introduction, removal and locator raise no issue and no other entry has its id |
| `CompatibilityLedger.CleanMeans` | scripts/architecture_lint/compatibility.py:80-108 | an entry is clean exactly when, on its fields: id matches the identifier pattern and is no other entry's; reason, owner and removal condition are texts with a character that is not a space; exactly one introduction, a readable date not after today or a semantic version; exactly one removal, a readable date not before today or a semantic version; a locator whose tracked file holds its marker, and any declaration not blank |
| `CompatibilityLedger.RemovalIssueIff` | scripts/architecture_lint/compatibility.py:201-223 | each removal diagnostic exactly for its own fault: not exactly one field, an unreadable date, a date before today, no semantic version |
| `CompatibilityLedger.IntroductionIssueIff` | scripts/architecture_lint/compatibility.py:181-198 | each introduction diagnostic exactly for its own fault: not exactly one field, an unreadable date, a date after today, no semantic version |
| `CompatibilityLedger.LocatorIssueIff` | scripts/architecture_lint/compatibility.py:226-250 | the first of the locator's six faults is reported, and none exactly for a tracked file that holds the marker |
| `CompatibilityLedger.RegistrationIff` | scripts/architecture_lint/compatibility.py:167-178 | an entry registers a declaration exactly when its locator names path, declaration and marker with nonempty texts |
| `CompatibilityLedger.ExemptedIff` | scripts/architecture_lint/compatibility.py:113-162 | a finding is exempted exactly when it is the last unambiguous one about a declaration that one clean entry names and no other clean entry does |
| `CompatibilityLedger.EntriesIff` | scripts/architecture_lint/compatibility.py:57-69 | the ledger is read exactly when it is an object of version 1 with a list of entries |
| `CompatibilityLedger.UndistinguishedIs` | scripts/architecture_lint/compatibility.py:117-135 | an ambiguous declaration is reported without its last hash sign and what follows it |
| `CompatibilityLedger.CheckId` | scripts/architecture_lint/compatibility.py:87-97 | identifier diagnostics in which the first occurrence of a duplicated id is reported too, once |
| `CompatibilityLedger.CheckFields` | scripts/architecture_lint/compatibility.py:99-103 | one diagnostic for each required field that is missing, not text or blank |
| `CompatibilityLedger.CheckEntry` | scripts/architecture_lint/compatibility.py:81-107 | all diagnostics of one entry, in order, objects and non-objects |
| `CompatibilityLedger.CheckEntries` | scripts/architecture_lint/compatibility.py:73-111 | the diagnostics of all entries and the registrations of exactly the entries without one |
| `CompatibilityLedger.IndexFindings` | scripts/architecture_lint/compatibility.py:117-139 | each ambiguous declaration is reported and never indexed; every other declaration maps to its last finding |
| `CompatibilityLedger.MatchRegistrations` | scripts/architecture_lint/compatibility.py:113-162 | exempts exactly the findings that one entry alone claims and reports every disputed or unmatched registration |
| `CompatibilityLedger.ValidateLedger` | scripts/architecture_lint/compatibility.py:52-164 | a malformed ledger exempts nothing; otherwise the diagnostics are exactly the deserved ones and the exempted findings exactly those a single clean entry claims |
| `CompatibilityLedger.NothingDeservedIffInOrder` | scripts/architecture_lint/compatibility.py:52-164 | no diagnostic exactly when all entries are clean, no declaration is ambiguous and every registration is undisputed and current |
| `CompatibilityLedger.ExemptionIsExact` | scripts/architecture_lint/compatibility.py:70-164 | an exempting entry has no diagnostic and a unique id, its finding is unambiguous, and entries and exempted findings correspond one to one |
| `BaselineRatchet.ValidBaseline` | scripts/architecture_lint/baseline.py:27-43 | gives entries only if the file has version 1, the rule's id and exactly those entries as distinct objects, and nothing only if no entries fit the file so |
| `BaselineRatchet.ActualByRule` | scripts/architecture_lint/baseline.py:59-61 | the last finding of each rule and identity |
| `BaselineRatchet.RuleDiagnostics` | scripts/architecture_lint/baseline.py:63-80 | one rule's new findings and stale entries, both exactly |
| `BaselineRatchet.BaselineDiagnostics` | scripts/architecture_lint/baseline.py:53-81 | the same for all rules |
| `BaselineRatchet.GrowthDiagnostics` | scripts/architecture_lint/baseline.py:108-128 | exactly the entries added to baselines that the base commit has |
| `BaselineRatchet.Filter` | scripts/architecture_lint/cli.py:76-76 | the findings that are not registered, in their order and with their repetitions |
| `BaselineRatchet.Lint` | scripts/architecture_lint/cli.py:72-87 | reports exactly the deserved ledger diagnostics, the imbalances between baselines and findings that are not exempted, and grown baselines; nothing exactly when all of it balances |
| `BaselineRatchet.LoadBaselines` | scripts/architecture_lint/baseline.py:46-50 | succeeds exactly when every rule has a valid baseline file |
| `BaselineRatchet.LoadBaselinesFromRef` | scripts/architecture_lint/baseline.py:84-105 | succeeds exactly when the base files that exist are valid and none is missing unless that is allowed, and then gives them |
| `BaselineRatchet.Run` | scripts/architecture_lint/cli.py:67-96 | a configuration error exactly when a needed baseline is missing or malformed; otherwise exactly the deserved reports, and none exactly when everything balances and no baseline has grown |
| `BaselineRatchet.CleanLintConserves` | scripts/architecture_lint/cli.py:72-87 | on a clean run every finding is registered by exactly one entry or is in its baseline, every baseline entry is witnessed by an unregistered finding, and declaration-bearing entries are in bijection with registered findings |
| `BaselineRatchet.BaselinesOnlyShrink` | scripts/architecture_lint/baseline.py:108-128 | along a clean history each baseline is contained in every earlier one |
| `BaselineRatchet.NoNewUnregisteredFindings` | scripts/architecture_lint/cli.py:76-87 | the unregistered identities of a rule at the end of a clean history were all in its baseline at the start |
| `AnnotationOutput.EscapeIsOnePass` | scripts/architecture_lint/output.py:8-12 | the chained replacements equal one replacement per character |
| `AnnotationOutput.EscapingIsReversible` | scripts/architecture_lint/output.py:8-12 | percent-decoding undoes the escaping of every text |
| `AnnotationOutput.EscapedIsClean` | scripts/architecture_lint/output.py:8-12 | escaped text has no line breaks, and as a property no colon or comma |
| `AnnotationOutput.EscapesOnlySpecials` | scripts/architecture_lint/output.py:8-12 | a text is left alone exactly when it holds no percent sign or line break, nor as a property a colon or comma |
| `AnnotationOutput.AnnotationIsUnambiguous` | scripts/architecture_lint/output.py:15-22 | equal annotation lines have equal paths, line numbers and messages |
| `SpecMetadata.ParseFrontmatter` | scripts/spec_metadata.py:118-169 | the loop computes the parse, with the error line of the first rejected line |
| `SpecMetadata.FrontmatterIs` | scripts/spec_metadata.py:118-169 | frontmatter is what stands between a first line and the next line of three hyphens; without the first there is none or an error, without the second an error |
| `SpecMetadata.LineDoes` | scripts/spec_metadata.py:130-168 | an item joins the open list, a field closes it and sets its key to an empty list, a scalar or a list to be filled, blank lines do nothing and any other line is refused |
| `SpecMetadata.StopsAtTheFirstRefused` | scripts/spec_metadata.py:130-168 | reading stops at the first refused line and names its number |
| `SpecMetadata.ListItemIff` | scripts/spec_metadata.py:136-137 | a list item is a gap, a hyphen, a gap and a value, which is stripped and unquoted |
| `SpecMetadata.KeyLineIff` | scripts/spec_metadata.py:149-158 | a field is a key of the key characters, a colon and a value, which is stripped |
| `SpecMetadata.ClassifiedBy` | scripts/spec_metadata.py:172-194 | the kind and system of a path, each exactly by the parts after its first `specs` |
| `SpecMetadata.MetadataInOrderIff` | scripts/spec_metadata.py:44-115 | a governed page raises no issue exactly when its system is the directory's, its status is one of the texts written out for its kind, an index has version 1 and a known migration status, and a design has a list of requirements; without frontmatter that one issue; other pages none |
| `SpecMetadata.IssuesAre` | scripts/spec_metadata.py:44-115 | each metadata issue is raised exactly by its own fault |
| `SpecMetadata.LinterAccepts` | scripts/lint-spec-files.py:155-172 | the linter has no violation of a governed page exactly when its frontmatter is readable and its metadata in order |
| `SpecMetadata.LinterReports` | scripts/lint-spec-files.py:155-172 | the linter reports unreadable frontmatter where reading stopped and nothing else then, and otherwise exactly the metadata issues |
| `SpecMetadata.CatalogRejectsIff` | scripts/list-docs.py:243-287 | the catalog refuses exactly files that are not its sources, frontmatter that it cannot read and governed pages that are not in order, and takes every other page with frontmatter or without |
| `SpecMetadata.MixedFieldIsUnreachable` | scripts/spec_metadata.py:138-145 | on no text is the mixed scalar and list error reported |
| `SpecMetadata.WrittenReadsBack` | scripts/spec_metadata.py:118-169 | the text of frontmatter written from any plain one-line scalars and lists parses to their meaning, whatever text follows |
| `PythonText.JoinedLinesSplit` | scripts/spec_metadata.py:120-120 | lines without line-breaking characters come back from their text, whatever text follows |
| `SpecMetadata.ToolsAgree` | scripts/list-docs.py:243-287 | for every requirement, design and system page, the catalog rejects the metadata exactly when the linter reports a violation, and exactly when the frontmatter is unreadable or the metadata, spelled out, not in order |
| `SpecCorpus.CollectRequirementIds` | scripts/lint-spec-files.py:591-602 | the loop collects what the two line patterns match |
| `SpecCorpus.CollectedIff` | scripts/lint-spec-files.py:591-602 | an identifier is collected under a line number exactly when that line defines it |
| `SpecCorpus.ParentOfCriterion` | scripts/lint-spec-files.py:605-606 | `AC-x.n` belongs to `REQ-x` whatever dots `x` holds |
| `SpecIdentifiers.ParentIsRequirement` | scripts/lint-spec-files.py:43-44 | the parent of every text of the criterion pattern is a text of the requirement pattern |
| `SpecIdentifiers.RequirementsAreTheParents` | scripts/lint-spec-files.py:605-606 | the texts of the requirement pattern are exactly the parents of texts of the criterion pattern |
| `SpecIdentifiers.NoLineDefinesBoth` | scripts/lint-spec-files.py:45-48 | no line has the shape of a requirement heading and of a criterion |
| `SpecIdentifiers.RequirementLineIsUnique` | scripts/lint-spec-files.py:45-45 | a line defines at most one requirement |
| `SpecCorpus.CheckCovered` | scripts/lint-spec-files.py:177-186 | one violation for each requirement without a criterion |
| `SpecCorpus.CheckOrphans` | scripts/lint-spec-files.py:187-198 | one violation for each criterion without its requirement |
| `SpecCorpus.CheckDocument` | scripts/lint-spec-files.py:155-200 | all violations of one document, none of them about identifiers if its metadata cannot be read |
| `SpecCorpus.FactsAre` | scripts/lint-spec-files.py:119-204 | what a document contributes, on its path and lines: its role, its silence, its requirement and criterion definitions with their lines, and the requirements a design names |
| `SpecCorpus.DocViolationsAre` | scripts/lint-spec-files.py:155-200 | each violation of a document exactly by its own fault |
| `SpecCorpus.AddDefinitions` | scripts/lint-spec-files.py:173-188 | every identifier's locations so far, in order |
| `SpecCorpus.CheckDuplicateIds` | scripts/lint-spec-files.py:609-625 | exactly the locations after the first of each identifier |
| `SpecCorpus.CheckReferences` | scripts/lint-spec-files.py:218-241 | one violation for exactly the references that are undefined or whose first definition belongs to another system |
| `SpecCorpus.Visit` | scripts/lint-spec-files.py:119-204 | one turn of the pass extends all its tables by one document |
| `SpecCorpus.LintFacts` | scripts/lint-spec-files.py:112-241 | exactly the violations of documents, duplicates, references and indexes, and none exactly when documents are silent, identifiers unique, references resolved and systems indexed |
| `SpecCorpus.UniqueIffDefinedOnce` | scripts/lint-spec-files.py:609-625 | no identifier has two recorded locations exactly when no two places of the corpus define it |
| `SpecCorpus.ResolvedIff` | scripts/lint-spec-files.py:218-241 | with unique identifiers, references resolve exactly when a requirement document of the design's own system defines each |
| `SpecCorpus.LintCorpus` | scripts/lint-spec-files.py:133-241 | exactly the corpus violations, and none exactly when the corpus is integral: metadata in order, each REQ and AC defined once, covered both ways within its document, every design reference owned by its system, every system indexed |
| `SizeRatchet.ParseSizeExceptions` | scripts/lint-spec-files.py:321-351 | stops exactly when a record that would enter the catalog has a size of more than 4300 digits; otherwise gives the catalog and exactly the malformed and repeated records, none exactly when every record is well formed and no path is repeated |
| `SizeRatchet.RecordIff` | scripts/lint-spec-files.py:321-351 | a record is a nonempty path, one tab and a decimal size, and means that size |
| `SizeRatchet.FirstRecordCounts` | scripts/lint-spec-files.py:321-351 | the first record of a path counts |
| `SizeRatchet.CheckSizes` | scripts/lint-spec-files.py:436-455 | exactly the visited files above their limit or ceiling |
| `SizeRatchet.WithinLimitMeans` | scripts/lint-spec-files.py:436-447 | a file of a known kind is within its ceiling if it is an excepted legacy file and within the limit of its kind otherwise |
| `SizeRatchet.VisitedIff` | scripts/lint-spec-files.py:112-122 | the checked files are those below docs/specs whose path ends in `.md` |
| `SizeRatchet.CanonicalIff` | scripts/lint-spec-files.py:425-433 | a canonical path is a visited one without NUL, with no empty or dotted part and a named file |
| `SizeRatchet.CheckCatalog` | scripts/lint-spec-files.py:458-527 | for each entry the first fault of its path, presence, kind and ceiling, and nothing else |
| `SizeRatchet.NoFaultIff` | scripts/lint-spec-files.py:458-527 | each fault of an entry exactly for its own reason, and none exactly for an entry that is canonical, regular, legacy, needed and not above the file's size |
| `SizeRatchet.CheckRatchet` | scripts/lint-spec-files.py:530-556 | exactly the paths whose ceiling was raised |
| `SizeRatchet.CheckRevision` | scripts/lint-spec-files.py:243-245 | stops exactly on such a record; otherwise exactly the size violations, and none exactly when all four size laws hold |
| `SizeRatchet.ExceptedSizeIsItsCeiling` | scripts/lint-spec-files.py:436-527 | on a clean run an excepted file's size equals its ceiling and exceeds the default limit |
| `SizeRatchet.ListedFileNeverGrows` | scripts/lint-spec-files.py:530-556 | over clean revisions a continuously listed file never grows |
| `SizeRatchet.UnlistedFileIsWithinDefault` | scripts/lint-spec-files.py:436-455 | a legacy file outside the catalog is within the default limit |
| `SpecLinter.CollectMigrations` | scripts/lint-spec-files.py:95-111 | stops exactly when a versioned system page gives its migration as a list, else gives every system's declared status |
| `SpecLinter.DeclaresIff` | scripts/lint-spec-files.py:95-111 | a page declares a status exactly if it is a readable README page of version 1 with one of the two known statuses as a scalar, and stops the run exactly if it gives a list instead |
| `SpecLinter.PageDecides` | scripts/lint-spec-files.py:95-111 | where a system has one page, its status is what that page declares |
| `SpecLinter.CheckMigrationContent` | scripts/lint-spec-files.py:249-290 | exactly the lines with migration debt, under the rule of the status, if the migration is complete or in progress and audited |
| `SpecLinter.CheckMigrations` | scripts/lint-spec-files.py:119-154 | exactly the legacy files left in migrated systems and the lines of debt in canonical documents of blocking migrations |
| `SpecLinter.DirectoryIs` | scripts/lint-spec-files.py:119-127 | a legacy file belongs to the directory right below `specs` |
| `SpecLinter.NothingReportedIffMigrated` | scripts/lint-spec-files.py:119-154 | nothing is reported exactly when no legacy file is left in a migrated system and no canonical document of a blocking migration holds debt |
| `SpecLinter.MigratedMeans` | scripts/lint-spec-files.py:119-154 | no debt is left exactly when no legacy file lies in the directory of a completed system and no requirement or design of a system that is completed, or in progress and audited, has a wrapper heading or a deferring criterion |
| `SpecLinter.LintSpecs` | scripts/lint-spec-files.py:75-246 | the run stops exactly on such a record or such a page; otherwise it reports exactly what it should, and nothing exactly when the corpus is integral, migrations have left no debt and all sizes are in order |
| `SpecLinter.AcceptedPageCanAbort` | scripts/lint-spec-files.py:104-111 | a page that satisfies the metadata contract and stops the run |
| `DecisionListing.FilterDecisions` | scripts/list-docs.py:351-366 | the listing is a sorted rearrangement of exactly the kept documents |
| `DecisionListing.KeyOrder` | scripts/list-docs.py:337-343 | any two keys are comparable, in one direction only; numbers and texts are never compared |
| `DecisionListing.LessTransitive` | scripts/list-docs.py:337-343 | the order of keys is transitive |
| `DecisionListing.NumberedIff` | scripts/list-docs.py:337-343 | a decision counts as numbered exactly when its identifier is not dated and is digits up to the end or a hyphen, and sorts by their value |
| `DecisionListing.DatedIff` | scripts/list-docs.py:337-343 | a decision counts as dated exactly when its identifier starts with four, two and two digits and a hyphen after each |
| `DecisionListing.TextLessIff` | scripts/list-docs.py:337-343 | texts are ordered by their first differing character, or by length |
| `DecisionListing.OrderIs` | scripts/list-docs.py:337-343 | numbered before dated before the rest; numbers ascend, other identifiers follow text order, paths break ties |
| `DecisionListing.ListingDependsOnlyOnTheSet` | scripts/list-docs.py:337-366 | any two sorted listings of the same set of documents with distinct paths are equal, in whatever order the documents were loaded |
| `DirectoryBrowser.DirectoryListing.constructor` | apps/web/components/folder-picker.tsx:212-227 | nothing listed, loading or outstanding |
| `DirectoryBrowser.InvStep` | apps/web/components/folder-picker.tsx:229-279 | every event keeps the invariant of path, generation, listing, loading and hidden setting |
| `DirectoryBrowser.InvAlways` | apps/web/components/folder-picker.tsx:229-279 | the invariant holds in every state of every run |
| `DirectoryBrowser.BrowserNeverShowsTheWrongDirectory` | apps/web/components/folder-picker.tsx:212-281 | in every run a shown listing answers a request for the browsed path, loading is shown exactly while the current request is outstanding, and an idle, open, error-free browser shows the current path under the current hidden setting |
| `DirectoryBrowser.ListingComesFromAResponse` | apps/web/components/folder-picker.tsx:229-249 | in every run a shown listing is the content of an earlier successful response to the request it names, while that request was the current one |
| `DirectoryBrowser.ResponsesAreShown` | apps/web/components/folder-picker.tsx:236-247 | a response to the current request ends the loading and is shown: a success as a listing of its content, a failure as an error beside what was listed |
| `DirectoryBrowser.NavigationAsks` | apps/web/components/folder-picker.tsx:229-235 | navigation asks for the given path under the current hidden setting and clears the rest |
| `DirectoryBrowser.EffectsAsk` | apps/web/components/folder-picker.tsx:251-279 | effects ask for the chosen value on opening or when it changes, for the browsed path when only the hidden setting changed, and otherwise for nothing; closing clears everything |
| `DirectoryBrowser.StaleResponseChangesNothingShown` | apps/web/components/folder-picker.tsx:239-246 | a late response only leaves the set of outstanding requests, and is always an older one |
| `DirectoryBrowser.EffectsKeepOrResetThePlace` | apps/web/components/folder-picker.tsx:251-279 | toggling hidden directories keeps place and listing, opening starts from the chosen value |
| `Breadcrumbs.AppendPathSegments` | apps/web/components/folder-picker.tsx:308-320 | pushes one segment per part with its accumulated path, after the given ones |
| `Breadcrumbs.PushSegments` | apps/web/components/folder-picker.tsx:286-305 | the file-system crumb, the drive or share crumb, then the parts |
| `Breadcrumbs.PathSegments` | apps/web/components/folder-picker.tsx:284-306 | no breadcrumbs for the empty path, those of its decomposition otherwise |
| `Breadcrumbs.RenderedDecomposes` | apps/web/components/folder-picker.tsx:284-320 | rendering a root and parts and decomposing the text gives them back, in all three syntaxes |
| `Breadcrumbs.DecomposeDecomposes` | apps/web/components/folder-picker.tsx:284-320 | every path decomposes into a proper root and separator-free, nonempty parts |
| `Breadcrumbs.DriveIff` | apps/web/components/folder-picker.tsx:286-292 | a path is a drive path exactly when it is a letter, a colon, any separators of either kind and one line |
| `Breadcrumbs.DriveDecomposes` | apps/web/components/folder-picker.tsx:286-292 | and its parts are those of that line |
| `Breadcrumbs.UncDecomposes` | apps/web/components/folder-picker.tsx:294-301 | two backslashes, a server, a separator, a share, any separators and one line: that share and the parts of the line |
| `Breadcrumbs.OtherwisePosix` | apps/web/components/folder-picker.tsx:303-305 | every path of neither shape is a POSIX path with all its parts |
| `Breadcrumbs.PartsAcross` | apps/web/components/folder-picker.tsx:284-320 | a separator anywhere divides the parts, so parts are the nonempty words between separators |
| `Breadcrumbs.TopTexts` | apps/web/components/folder-picker.tsx:286-305 | the first breadcrumb is the file system, then the drive or share with a final backslash |
| `Breadcrumbs.BreadcrumbTexts` | apps/web/components/folder-picker.tsx:308-320 | every later breadcrumb names its part, and its path is the one before with one separator and the part |
| `Breadcrumbs.BreadcrumbsArePrefixClosed` | apps/web/components/folder-picker.tsx:284-320 | for every nonempty path, segmenting the path of breadcrumb i gives exactly the first i + 1 breadcrumbs |
| `WorkspaceAdmin.OperationCount` | pluginsdk/exact_workspace_admin.go:397-409 | the loop counts the operations that are set |
| `WorkspaceAdmin.ActionsToProto` | pluginsdk/exact_workspace_admin.go:279-284 | one message per action, nil for none |
| `WorkspaceAdmin.StepToProto` | pluginsdk/exact_workspace_admin.go:267-286 | the step message of a configuration |
| `WorkspaceAdmin.ActionsFromProto` | pluginsdk/exact_workspace_admin.go:303-312 | the actions of the messages that are not nil, in order |
| `WorkspaceAdmin.StepFromProto` | pluginsdk/exact_workspace_admin.go:288-314 | the configuration of a step message, the zero one for nil |
| `WorkspaceAdmin.Choose` | pluginsdk/exact_workspace_admin.go:188-260 | the counter is the number of operations set, and with exactly one set, overwriting in order leaves that one |
| `WorkspaceAdmin.ToProto` | pluginsdk/exact_workspace_admin.go:183-265 | encoding succeeds exactly when one and only one operation is set, with that operation's message |
| `WorkspaceAdmin.FromProto` | pluginsdk/exact_workspace_admin.go:317-395 | decoding fails exactly for a nil request, an unset operation and an operation without a message, and tells the last case apart |
| `WorkspaceAdmin.DecodeUndoesEncode` | pluginsdk/exact_workspace_admin.go:183-395 | every command with exactly one operation comes back unchanged except that its empty slices are nil |
| `WorkspaceAdmin.NormalisationIsIdempotent` | pluginsdk/exact_workspace_admin.go:183-395 | decode-then-encode of every decodable request keeps its meaning, is idempotent, yields canonical requests and leaves exactly the canonical ones alone |
| `WorkspaceAdmin.NormalisationIsFull` | pluginsdk/exact_workspace_admin.go:183-395 | decoding and encoding a request again writes out exactly what it leaves unsaid: a missing configuration is the zero one, missing actions are dropped and empty lists are nil; every other field is as it was |
| `WorkspaceAdmin.StepFields` | pluginsdk/exact_workspace_admin.go:267-314 | each field of a step travels under its own name in both directions, and lists element by element |
| `WorkspaceAdmin.RepositoryRegisterFields` | pluginsdk/exact_workspace_admin.go:183-395 | each of the fifteen fields travels under its own name in both directions |
| `WorkspaceAdmin.OtherFields` | pluginsdk/exact_workspace_admin.go:183-395 | the same for creating and reordering, where a missing workflow configuration reads as an empty one |

## Left out

- The host policy is taken as enabled; with it off, calls pass the interceptor untouched and nothing is bound.
- gRPC and go-plugin transport, broker dialling and handshakes: the model assumes that the call-reference metadata entry arrives as sent, and that UUIDs are fresh.
- Case folding of gRPC metadata keys: the one key the SDK uses is lower case throughout.
- The host event bus between emission and delivery: any delivery of a published event may happen at any time, any number of times.
- Field-copy conversions and thin RPC forwarding elsewhere in the SDK: each is a one-step mapping.
- SHA-256 and UUID internals: the hash is any function to 32 bytes, and a running hash is the bytes written to it.
- The artifact server's checks for a missing provider or artifact id, which come before a validator exists, and an error that the provider itself returns, which the server passes on.
- ArtifactRetries.PromiseKeptIff: one direction assumes that fewer than 2^64 bytes are lost; beyond that the 64-bit count can come round, and whether the digest still matches depends on the hash. `LengthKeptIff` has no such bound.
- Typed nil pointers inside the wire request's operation field, on which the Go decoder would panic.
- Sharing of slices between a reorder command and its message: the codec is modelled on values, so aliasing is not captured.
- The architecture rules themselves: findings are inputs. Diagnostics are modelled by what they report, not by their wording or order.
- JSON reading: values are inputs, numbers are integers, and the canonical text of an identity stands for the identity. Date parsing is an input function.
- Git subprocesses, file reading and files that cannot be decoded, symbolic links, the clock and printing: file contents, sizes, previous catalogs and today's date are inputs.
- The line patterns for migration wrappers and deferring criteria, and the link from the shapes in `SpecIdentifiers` to the collecting loop: the corpus and migration results hold for any patterns.
- Configuration validation in the specification linter, and repositories without a specification directory.
- Catalog titles, identities, duplicate catalog identities, decision metadata and the filters of the listings; a filter is any predicate. Digits in decision ids are ASCII digits, at most 4300 of them.
- React rendering, menus, unmounting, and the browser's error texts: a failure is a failure.
- Desktop, CLI, packaging and build code: plumbing of processes, networks and operating systems.
