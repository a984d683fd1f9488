# InstallGate, modelled and verified in Dafny

InstallGate is a local npm registry gateway. It quarantines every tarball, inspects it, evaluates a
policy over collected evidence and only then releases the bytes to npm; it switches npm over to itself
by a crash-safe edit of `.npmrc`. This project models those parts and proves what they are for.

- **Quarantine and release.** `BlobStore` is the content-addressed store as a value: blobs, records,
  pins, byte counter, eviction. `BlobStoreObjects` holds the mutable objects, each method proved to take
  the store from one value to the one `BlobStore` prescribes. `Protocol` runs the tarball handler and the
  quarantine manager as a step system: a section under the store's mutex, a metadata call, or the
  compare-and-swap of an unpin closure is one step, a commit that has to evict is cut at its metadata
  calls, and any number of requests interleave with deletions, repeated calls of closures and an outside
  process writing into the blobs directory. `ProtocolInvariants` says what every step keeps;
  `ProtocolTheorems` and `ProtocolLiveness` hold the guarantees over whole runs. The hash is an arbitrary
  function.
- **Configuration transaction.** `Journal` gives each call of the lifecycle manager as a list of durable
  file operations; a crash keeps any prefix. `JournalSafety` and `JournalTheorems` prove crash safety over
  all runs, `JournalObjects` proves the imperative manager to perform exactly those lists, and `Npmrc`
  covers inspection and generation of the file.
- **Evidence and decision.** `Snapshot`, `Evidence`, `Assembler`, `CacheRuns` and `Policy`: canonical
  snapshots with an order-independent identity, the fresh/stale cache, assembly over any list of
  providers, and the decision matrix.
- **Name confusion.** `EditDistance` (edit scripts and the two-row program) and `Confusion` (the rules).
- **Parsers.** `Digest` over `Encodings` (RFC 4648 sections 4, 5 and 8) and `Text`; `Archive` over `Paths`.

Assumptions of the environment: rename and removal of a file are atomic and succeed, a crash is the only
fault of the configuration transaction, and nobody edits `.npmrc` while a transaction is open.

## Where the code and its documentation differ

- `DisableNpm` is documented to restore the earlier file byte for byte. It does so exactly under the
  condition of `DisableRestoresIff`: when no prior is recorded, or a journal is still open (recovery drops
  the prior first), an existing readable file is overwritten with a fixed public-registry line.
- Enabling on top of a completed enable records the gateway's own content as the prior, so the developer's
  file is forgotten; `SecondEnableRestoresIff` says exactly when it is not.
- Enabling keeps every other line exactly when the file is not one that ends in a lone carriage return,
  has no CR-LF pair and sets no registry (`EnabledLines`).
- The limit on the extracted size of an archive is checked on a 64-bit running total of the sizes in the
  headers. It binds every accepted archive exactly when the configured limits leave no room for that total
  to wrap around, and none for files beside an entry without data whose negative size lowers the total
  (`SizeLimitBindsIff`). The default limits are not of that kind (`DefaultLimitsDoNotBind`).

## Model

| member | source | states |
|---|---|---|
| Order.SortRows | internal/quarantine/metadata.go:141-143 | sorting gives an ascending permutation, ties in any order |
| BlobStoreObjects.MemoryMetadataStore.Put | internal/quarantine/metadata.go:63-80 | an empty digest is refused; otherwise one record is replaced, missing timestamps filled from the clock and from the creation time; records stay filed under their own digest |
| BlobStore.StampedTimes | internal/quarantine/metadata.go:71-76 | only missing times are filled in, creation from the clock and access from the creation; nothing else of the record changes |
| BlobStoreObjects.MemoryMetadataStore.Touch | internal/quarantine/metadata.go:95-106 | only the access time of an existing record changes; a missing record is reported |
| BlobStoreObjects.MemoryMetadataStore.UpdateStatus | internal/quarantine/metadata.go:109-120 | only the status of an existing record changes; a missing record is reported |
| BlobStoreObjects.MemoryMetadataStore.Delete | internal/quarantine/metadata.go:123-129 | exactly that record is gone |
| BlobStoreObjects.MemoryMetadataStore.List | internal/quarantine/metadata.go:132-146 | every record exactly once, least recently accessed first |
| BlobStoreObjects.DiskBlobStore.Open | internal/quarantine/blobstore.go:62-114 | succeeds exactly for a positive budget; the counter starts as the sum of the blob sizes on disk, and the accounting invariant holds exactly when every record that claims bytes has a blob |
| BlobStoreObjects.DiskBlobStore.EvictOneCandidate | internal/quarantine/blobstore.go:261-289 | removes the file and record of an unpinned record that no other unpinned record was accessed before, and reports the bytes freed; fails only when every record is pinned, changing nothing |
| BlobStoreObjects.DiskBlobStore.MakeRoom | internal/quarantine/blobstore.go:234-241 | the loop terminates, performs a least-recently-used sequence of evictions, and fails exactly when the bytes still do not fit, with no candidate left |
| BlobStoreObjects.DiskBlobStore.Commit | internal/quarantine/blobstore.go:224-257 | an existing blob wins; otherwise room is made by evictions and the blob enters store and counter, or the evictions done so far stay |
| BlobStoreObjects.DiskBlobStore.PutInternal | internal/quarantine/blobstore.go:152-257 | a blob that was not there before has the expected digest; when each error is given, exactly; every error but the budget error of a commit leaves the store unchanged |
| BlobStoreObjects.DiskBlobStore.Pin | internal/quarantine/blobstore.go:317-344 | fails exactly when there is no blob; otherwise the count goes up by one and a fresh, uncalled closure is returned |
| BlobStoreObjects.UnpinClosure.Call | internal/quarantine/blobstore.go:331-341 | the first call gives one pin back, later calls change nothing |
| BlobStoreObjects.DiskBlobStore.Delete | internal/quarantine/blobstore.go:354-377 | refused exactly when pinned; otherwise file and record go and the counter drops, clamped at zero |
| BlobStoreObjects.ReleaseStream.Close | internal/quarantine/manager.go:287-296 | only the first Close gives the pin back |
| BlobStore.EvictAccounted | internal/quarantine/blobstore.go:261-289 | eviction keeps the counter equal to the sum of blob sizes, also for records without a file and whatever happened to the record since it was listed |
| BlobStore.DeleteAccounted | internal/quarantine/blobstore.go:354-377 | deletion keeps the counter exact and never reaches the clamp |
| BlobStore.CommitSucceedsIff | internal/quarantine/blobstore.go:224-289 | committing a new blob succeeds if and only if it fits beside the blobs that are pinned or have no record, whatever ties the order breaks; then the counter is within the budget, the blob is stored and only evicted blobs are gone |
| BlobStore.EvictionsAreOldestFirst | internal/quarantine/blobstore.go:234-289 | evicted records were unpinned, pairwise distinct, in order of access, and accessed no later than every surviving unpinned record |
| BlobStore.EvictionsAreMinimal | internal/quarantine/blobstore.go:235-241 | after any fewer evictions the blob did not fit |
| ProtocolInvariants.NextKeepsBase | internal/quarantine/manager.go:100-296 | every step of every request, deletion, repeated closure call and quiet outside write keeps: pin counts are lease counts, open leases belong to the request that holds them, the mutex belongs to the request in the middle of its commit, a picked victim stays unpinned, and the content hashed for release is still on disk when it is opened again |
| ProtocolInvariants.NextKeepsExact | internal/quarantine/blobstore.go:152-377 | every step without an outside writer keeps the byte counter exact, leased blobs on disk, and a blob behind every record that claims bytes |
| ProtocolInvariants.NextKeepsFull | internal/quarantine/manager.go:100-279 | every step without an outside writer keeps every stored blob matching the digest its key names, and every inspection relied on about such content |
| ProtocolInvariants.KeyNamesDigest | internal/quarantine/manager.go:101-106 | content is authentic under a request's key exactly when it has the digest the request expects |
| ProtocolInvariants.OpIsBacked | internal/quarantine/manager.go:152-167 | a record that claims bytes is only written while the blob is on disk, because it is pinned; a size listed for eviction stands for a blob that is still there |
| ProtocolTheorems.AccountingIsExact | internal/quarantine/blobstore.go:152-377 | in every reachable state, also in the middle of an eviction loop that other requests' metadata calls interleave with, the pin count of a key is its number of unreturned leases, every leased blob is on disk, the counter is the exact sum of blob sizes, and so the clamp never fires |
| ProtocolTheorems.BudgetIsRespected | internal/quarantine/blobstore.go:219-257 | a store opened within its budget is within it in every reachable state |
| ProtocolTheorems.ServedBodyHasExpectedDigest | internal/gateway/transport.go:510-644 | under any interleaving and any outside write that leaves alone what is being released, a served body has the digest the request expected |
| ProtocolTheorems.OverwrittenBytesAreDelivered | internal/gateway/transport.go:635-643 | bytes written over the file in place while it is streamed are what the client gets |
| ProtocolTheorems.ServedBodyIsTheInspectedOne | internal/gateway/transport.go:558-643 | without outside writes a served body is the very content this request's inspection accepted (or a hash collision), it had no dangerous script, and neither policy check answered Block or ApprovalRequired |
| ProtocolTheorems.ResponsesAreExplained | internal/gateway/transport.go:510-644 | every response of every run has its cause in the request, the policy replies, upstream's answer, the upload or the content inspected or released: a refusal by policy names Block or ApprovalRequired of one of the two checks, a refusal of content names content that is rejected, dangerous or of the wrong digest, a 502 names what failed, a pass-through the upstream status below 500 |
| ProtocolTheorems.RefusedContentIsAuthentic | internal/quarantine/manager.go:185-259 | without outside writes only content with the expected digest is ever refused, no blob is missing at inspection and no second check fails |
| ProtocolTheorems.VanishedMeansRemoved | internal/quarantine/manager.go:109-114 | a request fails to find its blob only if the blob was there and was taken away |
| ProtocolTheorems.NoRoomMeansFull | internal/quarantine/blobstore.go:234-241 | a request finds no room only if its body did not fit beside the pinned and unrecorded blobs |
| ProtocolTheorems.DeservingAreServed | internal/gateway/transport.go:584-643 | a finished request that both policy checks let pass, whose whole upload has the expected digest and fits, and whose content inspection accepts, is served, exactly the uploaded bytes under a collision-free hash, unless its blob was taken away or there was no room |
| ProtocolTheorems.RecordsTellTheTruth | internal/quarantine/manager.go:138-167 | records carry the request's own package, version and time; Blocked is written exactly when the answer will be a refusal of the content, Released exactly before streaming |
| ProtocolTheorems.AnswersAreMarked | internal/quarantine/manager.go:197-272 | whoever is refused for the content has marked its record Blocked, whoever is served has marked it Released |
| ProtocolTheorems.FinishedRequestsOweNothing | internal/gateway/transport.go:558-643 | on every exit path a finished request has returned every lease it opened |
| ProtocolTheorems.StepTouchesOwnLeasesOnly | internal/quarantine/manager.go:152-296 | a step changes only leases of its own request, a lease only moves forward, and calling a closure again at any time changes nothing |
| ProtocolLiveness.RunsAreBounded | internal/gateway/transport.go:510-644 | in every run the requests together take at most 21 steps each, plus two for each record there was at the start, although they write records while others evict |
| ProtocolLiveness.NoDeadlock | internal/quarantine/blobstore.go:224-289 | as long as a request is unanswered, some unanswered request can take a step |
| ProtocolLiveness.UninterruptedCommit | internal/quarantine/blobstore.go:224-289 | left to itself, the eviction loop of the step system does exactly what the commit section of the store is specified to do |
| Journal.AtomicWriteEffect | internal/config/store.go:182-211 | cut off anywhere, an atomic write leaves at most an extra temporary file; complete, it replaces exactly one file |
| JournalObjects.LifecycleManager.AtomicWriteFile | internal/config/store.go:182-211 | does to the disk exactly the prefix of its durable operations that the crash allows |
| JournalObjects.LifecycleManager.BeginTransaction | internal/config/journal.go:28-45 | writes the pending journal, or the prefix of that which a crash allows |
| JournalObjects.LifecycleManager.StageTransaction | internal/config/journal.go:48-86 | stages the content under a fresh name and names it in the journal, or a prefix of that |
| JournalObjects.LifecycleManager.CommitTransaction | internal/config/journal.go:90-146 | fails and touches nothing exactly when a staged file is needed and missing; otherwise moves or removes the target, saves the state, clears the journal, in this order, or a prefix of that |
| JournalObjects.LifecycleManager.RecoverJournal | internal/config/journal.go:149-205 | removes the staged file, puts the prior back, saves the disabled state, clears the journal, in this order, or a prefix of that |
| JournalObjects.LifecycleManager.EnableNpm | internal/config/lifecycle.go:208-252 | recovery, then the enable transaction if inspection and the health check pass, cut off anywhere |
| JournalObjects.LifecycleManager.DisableNpm | internal/config/lifecycle.go:256-306 | recovery, then the disable transaction for the recorded or the fallback prior, cut off anywhere |
| JournalSafety.RecoverPrefix | internal/config/journal.go:149-205 | a recovery cut off anywhere leaves a transaction that can still restore the original; a complete one has restored it, disabled, journal clear |
| JournalSafety.TransactionPrefix | internal/config/journal.go:28-146 | a transaction cut off before its journal exists changed nothing visible; cut off later it is open and revocable; otherwise target, state and journal are as committed |
| JournalSafety.EnablePrefix | internal/config/lifecycle.go:208-252 | an enable cut off anywhere can be undone; a complete one is enabled with the original recorded, or back at the original if inspection or health refused |
| JournalTheorems.DisablePrefix | internal/config/lifecycle.go:256-306 | a disable cut off anywhere keeps the invariant; a complete one has restored the original |
| JournalTheorems.EnableIsAllOrNothing | internal/config/lifecycle.go:208-252 | an enable cut off anywhere, then any number of recoveries each cut off anywhere, then a complete one: the exact original with a clear journal and disabled state, or everything done with the original recorded |
| JournalTheorems.RunKeepsInv | internal/config/lifecycle.go:208-306 | every run of possibly crashed enable, disable and recovery calls that keeps to the documented order is always disabled, enabled or revocable |
| JournalTheorems.OriginalIsNeverLost | internal/config/journal.go:90-205 | in every state of every such run the original is in the target, the journal or the saved state, and the target is the original or the generated content |
| JournalTheorems.CompletedDisableRestores | internal/config/lifecycle.go:256-306 | each completed disable of such a run restores the original exactly, absent and empty files included |
| JournalTheorems.DisableWithoutPrior | internal/config/lifecycle.go:266-285 | with nothing recorded, an existing readable file becomes the fixed registry line; an absent or refused one stays |
| JournalTheorems.DisableRestoresIff | internal/config/lifecycle.go:256-306 | from any state of the invariant, a complete disable leaves the original in place if and only if the journal is clear with a prior recorded, or the original is absent, refused by inspection, or equal to the fallback |
| JournalTheorems.PendingDisableOverwritesEmptyFile | internal/config/lifecycle.go:257-285 | disabling while a transaction over an empty file is open does not bring the empty file back |
| JournalTheorems.SecondEnableRestoresIff | internal/config/lifecycle.go:208-306 | enabling again and then disabling brings the original back if and only if the gateway is not healthy, inspection refuses the current file, or the current file is the original |
| JournalTheorems.SecondEnableLeavesFileBehind | internal/config/lifecycle.go:208-306 | with no file at the start, enabling twice and disabling leaves a file |
| Npmrc.ScanLines | internal/config/npmrc.go:83-105 | the first offending line decides the error; otherwise the last registry line is found |
| Npmrc.InspectNpmrc | internal/config/npmrc.go:56-115 | the result of inspection, for absent, empty, accepted and refused files |
| Npmrc.InspectAcceptsIff | internal/config/npmrc.go:83-112 | a file is accepted if and only if every line is ignored or free of both patterns, and the registry its last registry line sets is allowed; the registry error exactly when only the latter fails |
| Npmrc.FirstOffenceIff | internal/config/npmrc.go:83-97 | which of the two other errors is given, by the first line that is not harmless, credentials before scopes |
| Npmrc.RegistryLineIff | internal/config/npmrc.go:23-26 | a line sets the registry to a value exactly when it is white space, the word in any case, an equals sign and the value, with white space between |
| Npmrc.IgnoredIff | internal/config/npmrc.go:84-87 | a line is ignored exactly when it is white space, or white space and a comment sign first |
| Npmrc.RegistryAllowedIff | internal/config/npmrc.go:117-138 | a registry is allowed exactly when, without white space and quotes around, it is empty, the public registry under either scheme with or without final slash, or loopback |
| Npmrc.LinesOfJoin | internal/config/npmrc.go:79-81 | joining lines and splitting again gives the lines back, unless a plain line feed would merge with a carriage return |
| Npmrc.EnabledLines | internal/config/npmrc.go:148-173 | the generated file has the old lines with the effective registry line replaced, or one appended, if and only if no final carriage return is swallowed |
| Npmrc.EnabledContentIsEffective | internal/config/npmrc.go:56-173 | inspecting the generated file always succeeds with the gateway URL as the effective registry, for any number of registry lines and any mix of line ends; every other line is unchanged exactly when no final carriage return is swallowed |
| Npmrc.EnabledText | internal/config/npmrc.go:148-173 | without a registry line the file is kept byte for byte in front of the added line, which ends as the file's lines do; with one, the lines are joined again by that ending |
| EditDistance.DistanceIsShortest | internal/evidence/confusion.go:468-482 | the tabulated recurrence is the least cost of any insert, delete and substitute script between the words |
| EditDistance.FillRow | internal/evidence/confusion.go:469-480 | from the row of one prefix the loop fills the row of the next |
| EditDistance.LevenshteinDistance | internal/evidence/confusion.go:450-485 | the two-row program returns that distance |
| EditDistance.Symmetric | internal/evidence/confusion.go:450-485 | the distance is symmetric |
| EditDistance.ZeroIffEqual | internal/evidence/confusion.go:450-485 | it is zero exactly on equal words |
| EditDistance.Triangle | internal/evidence/confusion.go:450-485 | it satisfies the triangle inequality, by composing scripts |
| Confusion.CheckKeyboardAdjacency | internal/evidence/confusion.go:391-417 | true exactly when replacing one character by a keyboard neighbour turns one name into the other |
| Confusion.IsTransposition | internal/evidence/confusion.go:419-437 | true exactly when swapping two neighbouring, different characters does, for names of three or more |
| Confusion.NormalizeSeparators | internal/evidence/confusion.go:439-448 | the name without hyphens, underscores and dots |
| Confusion.SeparatorsDropped | internal/evidence/confusion.go:439-448 | exactly hyphens, underscores and dots are dropped |
| Confusion.CompareNames | internal/evidence/confusion.go:258-308 | the first rule two different names meet, in the order of the source |
| Confusion.RulesMean | internal/evidence/confusion.go:258-308 | when each rule is the one reported, with the length limits of four, eight and ten bytes |
| Confusion.CheckUnicodeConfusable | internal/evidence/confusion.go:315-360 | the first popular name a candidate that is not ASCII reads as once look-alikes are replaced, found exactly when there is one |
| Confusion.FindScopeImitation | internal/evidence/confusion.go:228-243 | the first popular name under an untrusted scope, found exactly when there is one |
| Confusion.ScopeImitatesIff | internal/evidence/confusion.go:228-234 | a scoped imitation is an at-sign scope without a slash, a slash and the name |
| Confusion.FindImitated | internal/evidence/confusion.go:246-309 | the first popular name that meets a rule, with its first rule |
| Confusion.EvaluateCandidate | internal/evidence/confusion.go:218-312 | no match exactly when no popular name is imitated by any rule; a match names the first popular name its search stops at and the first rule that one meets, and no earlier search stops anywhere |
| Confusion.FewDiffsAreDistance | internal/evidence/confusion.go:391-437 | for names of one length, up to two differing positions are exactly the edit distance |
| Confusion.AdjacentIsDistanceOne | internal/evidence/confusion.go:391-417 | a keyboard-adjacency hit is at distance exactly one |
| Confusion.TransposedIsDistanceTwo | internal/evidence/confusion.go:419-437 | a transposition hit is at distance exactly two |
| Confusion.UnreportedIsFarAway | internal/evidence/confusion.go:287-308 | an unreported name is at distance at least two from every different popular name of four or more bytes, and at least three from every one of ten or more |
| Confusion.AsciiDistance | internal/evidence/confusion.go:218-220 | on ASCII names that distance is the one between the names themselves, regardless of case |
| Snapshot.CanonicalizeObservations | internal/evidence/snapshot.go:208-246 | the result is the normalised observations in ascending order, none lost or added |
| Snapshot.SignalOrderIs | internal/evidence/snapshot.go:221-243 | the order is by kind, source, observation, confidence and the two times as text |
| Order.CmpLessIff | internal/evidence/snapshot.go:221-243 | texts compare by the first difference, a proper prefix first |
| Snapshot.CanonicalIsUnique | internal/evidence/snapshot.go:208-246 | there is only one such result, and it depends only on the multiset of normalised observations |
| Snapshot.CanonicalIsIdempotent | internal/evidence/snapshot.go:208-246 | canonicalising twice is canonicalising once |
| Snapshot.ComputeSnapshotID | internal/evidence/snapshot.go:248-292 | the digest of the payload with the states listed by ascending key, whatever order the map is walked in |
| Snapshot.NewSnapshot | internal/evidence/snapshot.go:52-69 | the snapshot over the canonical observations, with its identity |
| Snapshot.SnapshotHolds | internal/evidence/snapshot.go:52-69 | a snapshot holds everything it was given, its times rounded down to milliseconds |
| Snapshot.NormalizeRoundsDown | internal/evidence/freshness.go:40-45 | normalising rounds down to the whole millisecond |
| Snapshot.OrderDoesNotMatter | internal/evidence/snapshot.go:52-69 | snapshot and identity depend on the observations only through the multiset of normalised ones |
| Snapshot.PermutationsAgree | internal/evidence/snapshot.go:52-69 | any permutation of the observations gives the same snapshot and identity |
| Snapshot.IdentityIff | internal/evidence/snapshot.go:248-292 | with an injective digest, two identities are equal exactly when package, version, multiset of normalised observations and states are |
| Snapshot.Decode | internal/evidence/snapshot.go:182-206 | rebuilds the snapshot and refuses it exactly when a stored identity differs from the computed one |
| Snapshot.EncodedSnapshotDecodes | internal/evidence/snapshot.go:170-206 | decoding an encoded snapshot gives the same snapshot back, identity included |
| Evidence.MemoryCache.Put | internal/evidence/cache.go:127-142 | failures are not stored; otherwise exactly the entry of the outcome's own kind is replaced |
| Evidence.AllowsServed | internal/evidence/cache.go:145-180 | a stored allow is served under its own coordinates, with its decision, exactly until its tolerance is over, and no store changes what is served under other coordinates |
| Evidence.MemoryCache.PutCachedAllow | internal/evidence/cache.go:163-180 | only allow decisions are kept, with decision, snapshot and normalised times, replacing exactly one entry |
| Evidence.EvidenceKeyInjective | internal/evidence/cache.go:86-92 | joined keys tell coordinates apart when kinds have no colon and versions no at-sign |
| CacheRuns.CacheServesAsClassified | internal/evidence/cache.go:95-142 | after any run of assemblies a lookup serves the last outcome stored for exactly these coordinates as Classify says for its kind and retrieval time, or nothing |
| CacheRuns.FreshnessOnlyFalls | internal/evidence/freshness.go:147-171 | as time passes the classification of an outcome goes from available to stale to unavailable and never back |
| Evidence.ClassifyByAge | internal/evidence/freshness.go:126-171 | available up to the fresh window of the kind, stale up to the tolerance after it, then unavailable; unknown kinds have one hour and twelve more |
| CacheRuns.ServedOnlyAges | internal/evidence/assembler.go:112-153 | along any run, until a new outcome is stored for some coordinates, lookups serve the same outcome only ever older, or nothing |
| CacheRuns.OtherKindsAreUntouched | internal/evidence/assembler.go:112-153 | an assembly stores nothing for coordinates it does not consult a provider about |
| CacheRuns.SameCacheAsAssembler | internal/evidence/assembler.go:119-153 | the cache of those runs is the one assembling produces |
| Assembler.EvidenceAssembler.Ask | internal/evidence/assembler.go:119-153 | fresh cache, else the live answer unless the provider fails, else stale cache, else the failure; only live available answers are cached |
| Assembler.EvidenceAssembler.Assemble | internal/evidence/assembler.go:79-185 | the snapshot and the cache after consulting every provider and marking every uncovered required kind |
| Assembler.EvidenceIsUsed | internal/evidence/assembler.go:112-166 | for every provider of any list, at its turn: the signals of a fresh cached outcome, else of a live answer, else of a stale cached outcome are among the observations with missing times filled in, and its state is recorded unless the kind is asked for again |
| Assembler.ObservationsHaveSource | internal/evidence/assembler.go:79-181 | every observation comes from the cached allow, from the outcome used for a provider, or marks a required kind without provider |
| Assembler.MissingKindIsMarked | internal/evidence/assembler.go:168-181 | a required kind without provider has the state unavailable and an observation saying so |
| Assembler.AllowShown | internal/evidence/assembler.go:86-108 | a cached allow shows as fresh up to its freshness, as stale up to its tolerance, and then not at all |
| Assembler.CacheKeepsLiveAnswers | internal/evidence/assembler.go:136-141 | a live available answer is stored under its own kind with the tolerance of the policy, and nothing else changes in the cache |
| Assembler.ForbiddenEvidenceBlocks | internal/evidence/assembler.go:112-166 | when the outcome used for some provider carries a forbidding signal, the document blocks, whatever the profile, the caches, the other providers and approvals say |
| Assembler.ApprovalLiftsHoldsOnly | internal/gateway/engine.go:79-89 | an approval turns ApprovalRequired into Allow and changes nothing else, and missing evidence always shows as degraded |
| Assembler.FailureIsReported | internal/evidence/provider.go:108-143 | a provider that fails with nothing usable cached leaves an "unavailable" observation |
| Assembler.OutageIsReported | internal/evidence/assembler.go:112-181 | so does every such failure, and every uncovered required kind, through the whole assembly |
| Assembler.OutagesNeverPassUnnoticed | internal/gateway/engine.go:73-93 | after such an outage the document is always degraded and never Warn, and without a human approval it allows only under the balanced profile with a fresh cached allow |
| Policy.AssessWithThreshold | internal/policy/evaluate.go:153-244 | exactly the flags the observations raise, and the outage flag when evidence is unavailable; the last imitated name given, and the scripts and reasons named, in order |
| Policy.FlagsMean | internal/policy/evaluate.go:153-265 | each of the fifteen flags is set if and only if some observation says what it stands for, the outage flag also by an unavailable state; severities in their order against the threshold |
| Policy.NamesRead | internal/policy/evaluate.go:172-181 | which name an observation gives |
| Policy.IndicatorRead | internal/policy/evaluate.go:204-211 | an indicator of four parts names its script and a reason |
| Policy.LastNameWins | internal/policy/evaluate.go:172-181 | the imitated name kept is the last one given |
| Policy.ScriptsAreKept | internal/policy/evaluate.go:196-217 | every script named is kept, in order |
| Policy.NamedScriptsAreFlagged | internal/policy/evaluate.go:196-217 | whenever a dangerous script is named, the flag that blocks is raised, under every threshold |
| Policy.Matrix | internal/policy/evaluate.go:41-125 | Block, ApprovalRequired, Warn, Allow and degraded, each as an if and only if on flags and profile |
| Policy.RuleNames | internal/policy/evaluate.go:44-89 | the rule named when something grave is known |
| Policy.RuleNamesOtherwise | internal/policy/evaluate.go:91-124 | the rule named otherwise |
| Policy.ForbiddenBlocks | internal/policy/evaluate.go:44-69 | one observation of a missing package, a mismatch, malice, a dangerous script or a severe vulnerability blocks under both profiles |
| Policy.EvaluateMonotone | internal/policy/evaluate.go:41-125 | a stricter profile and more flags, the outage and cached-allow flags aside, never give a milder verdict |
| Policy.VerdictIsMonotone | internal/policy/evaluate.go:41-265 | stricter profile, lower threshold and more observations, neither cached ones nor "unavailable", jointly never give a milder verdict, for snapshots of any length |
| Policy.ExclusionsCost | internal/policy/evaluate.go:91-114 | an added outage makes the verdict milder if and only if a balanced profile would warn of install-time code and a fresh cached allow is there; an added cached allow if and only if there is an outage; either only where nothing grave is known |
| Policy.OutageVerdict | internal/policy/evaluate.go:93-114 | during an outage the policy allows only under the balanced profile with a fresh cached allow, and then says it is degraded |
| Digest.ParsedIsCanonical | internal/quarantine/digest.go:39-121 | whatever is accepted has the length of its algorithm and comes out in the one canonical form of its bytes |
| Digest.SpellingsParseAlike | internal/quarantine/digest.go:39-121 | SRI base64, unpadded URL-safe base64, prefixed hex and bare hex in any case, with white space around, parse to the same value |
| Digest.KnownSpellingsParse | internal/quarantine/digest.go:39-136 | each spelling of a digest of sha512 with 64 bytes, sha384 with 48, sha256 with 32 or sha1 with 20 is accepted and comes out canonical |
| Digest.ParsesIff | internal/quarantine/digest.go:39-136 | parsing succeeds with a value if and only if the trimmed text reads, as bare hex or as a name, a dash and hex or base64, as the bytes of such a digest, and the value is its canonical form |
| Digest.UnsupportedIff | internal/quarantine/digest.go:46-53 | the algorithm is called unsupported exactly when there is a prefix that is none of the four names |
| Digest.ReparseGivesBack | internal/quarantine/digest.go:34-121 | parsing the SRI form or the key of a parsed digest gives it back |
| Digest.KeyInjective | internal/quarantine/digest.go:34-36 | distinct digests have distinct keys |
| Digest.ReadingsNeverCompete | internal/quarantine/digest.go:39-136 | where the hex reading applies, no base64 reading yields a digest of the algorithm |
| Encodings.Base64RoundTrip | internal/quarantine/digest.go:67-90 | decoding the standard or URL-safe encoding of any bytes gives them back |
| Encodings.HexRoundTrip | internal/quarantine/digest.go:55-121 | decoding the hex of any bytes, in any case, gives them back |
| Encodings.HexDecodeIff | internal/quarantine/digest.go:55-121 | exactly the hexadecimal forms in any case decode to the bytes |
| Encodings.HexDigitsOf | internal/quarantine/digest.go:81-82 | two digits for each byte, the high one first |
| Encodings.GroupIsPositional | internal/quarantine/digest.go:58-82 | four characters are the base-64 digits, in the alphabets of RFC 4648 sections 4 and 5, of the number three bytes make |
| Encodings.UngroupRoundTrip | internal/quarantine/digest.go:68-70 | four characters of the alphabet are the encoding of the bytes they decode to |
| Archive.PathDepth | internal/quarantine/archive.go:128-140 | the number of parts of the cleaned name that are neither empty nor "." |
| Archive.InspectEntries | internal/quarantine/archive.go:253-349 | the loop computes the walk, stopping at the first error |
| Archive.AcceptedIff | internal/quarantine/archive.go:275-349 | the walk accepts an archive if and only if it has at most the allowed entries, all cleaned names are different, every entry passes the checks on path, depth, links, size and nesting, and no prefix's 64-bit total exceeds the limit |
| Archive.EntryErrorIs | internal/quarantine/archive.go:275-349 | which error an entry gives: the first of the checks it fails |
| Archive.WalkErrorIff | internal/quarantine/archive.go:253-349 | the error of the walk is that of the first entry that fails |
| Archive.TraversesIff | internal/quarantine/archive.go:280-293 | a name is refused exactly when it starts with a slash, a backslash or something like a drive, or has a parent element anywhere |
| Archive.LinkEscapesIff | internal/quarantine/archive.go:308-332 | a link is refused exactly when its target starts at a root or goes up |
| Archive.IsNestedArchiveIff | internal/quarantine/archive.go:117-125 | nested archives are told by extension, without regard to case |
| Archive.AcceptedArchive | internal/quarantine/archive.go:275-343 | an accepted archive is within the entry count, and its entries are relative, without parent elements, within depth and file size, in pairwise different places |
| Archive.HonestSizesIff | internal/quarantine/archive.go:334-343 | an accepted archive without negative sizes claims no more than the extraction limit exactly when its sizes add up to less than 2^63 |
| Archive.SizeLimitBindsIff | internal/quarantine/archive.go:334-343 | every accepted archive unpacks to at most the extraction limit if and only if extraction plus file limit, or entry limit times file limit, is below 2^63, and the files that fit beside one other entry are within the limit |
| Archive.Overflows | internal/quarantine/archive.go:334-343 | where the first part fails, an archive is exhibited that is accepted with 2^63 or more bytes of data |
| Archive.ExceedsLimit | internal/quarantine/archive.go:334-343 | where the second part fails, an accepted archive is exhibited whose data exceed the limit, beside a header-only entry of negative size |
| Archive.DefaultLimitsDoNotBind | internal/quarantine/archive.go:34-41 | under the default limits any number of 20 MiB files up to 9999 can be accepted, against the extraction limit of 250 MiB |
| Archive.ResolvedElements | internal/quarantine/archive.go:308-332 | an accepted link resolves to a place below the directory it lies in |
| Archive.LinksNeverEscape | internal/quarantine/archive.go:308-319 | following symlinks of an accepted archive, also as directories and through chains of any length, never gives an absolute or parent-escaping path |

## Left out

- Reading a file for inspection or for a hash is one step, so an outside write in the middle of such a read is not modelled; a partial read of the release stream is not either.
- The manager and the tarball handler are request programs of the step system, not objects: their state between steps is the program position.
- HTTP, headers, redirects, timeouts, context cancellation and partial delivery; the expected integrity is an input of a request, and the `IntegrityIndex` that may supply it is not modelled.
- Hash functions and the static inspector are arbitrary functions; gzip, tar decoding, the limits on compressed bytes and on inspection time, `package.json` inspection and native-build detection are not modelled. The archive walk starts from tar headers.
- Staging files of the blob store, failing removals and renames, file permissions and fsync.
- `.npmrc` credential and scope patterns and URL parsing are arbitrary predicates; the registry-line pattern is modelled concretely.
- Transaction and decision identifiers, timestamps, ports and process ids of the saved state; corrupt journal or state files.
- A crash inside a write leaves the temporary file empty or complete; a partly written one is not modelled, and no step reads one.
- JSON is an abstract record with a digest function; times are integers with an injective text form.
- Human approvals are a yes or no; the SQLite store, audit log, and explanation texts are not modelled. The boolean fields of the assessment are a set of flags.
- An assembler configured without a cache, `FreshnessStats` and the default freshness table.
- Confusion.EvaluateCandidate: its timeout is not modelled, and similarity is an exact rational instead of a float; UTF-8 and `unicode.ToLower` are functions of which only the behaviour on ASCII and the round trip of encoding are relied on.
- Archive.SizeLimitBindsIff: of the tar reader it is relied on that it refuses negative sizes where data follows; the limits on compressed bytes and on time, which bound an archive as well, are not part of it.
- Archive.LinksNeverEscape: targets are followed by text, after cleaning, as the check itself resolves them; `filepath.IsAbs` is the one of Unix.
- ProtocolTheorems.ServedBodyHasExpectedDigest: excluded are outside writes that replace a blob between its second hash and the opening of the release stream, or write over it in place from that hash until the stream is delivered.
- ProtocolTheorems.ServedBodyIsTheInspectedOne: blobs that were on disk before the store was opened have the digest they are filed under, since a blob that is already there is not hashed again at ingestion.
- Route classification, upstream URL building, redaction, the CLI, the daemon and the MCP server.
