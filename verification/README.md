# Verified model of the ToolPlane core

ToolPlane is a control plane for tools that call an ERP system. Versioned tools are admitted into a
store, mirrored into a runtime registry by reconciliation, and called while revisions and plugin
bindings change underneath the calls. This project models the parts that have to get that right and
proves, for all inputs, runs or interleavings, what they keep.

Three kinds of model occur. Protocols between concurrent parties are state machines whose steps are
the program's atomic actions (`CacheProtocol`, `Authority`), and so are the requests that change store and
registry, with every way they can fail (`ControlPlane`). Objects that change in place are classes whose
methods are proved against functions of the old state, with the properties proved about those functions
(`MemoryBackend`, `AdmissionStore`, `ToolRegistry`, `ToolServer`, `ConcurrencyLimiter`, `ConnectorRetry`,
`FilterWriter`). Compilations and parsers are methods with the source's loops, proved against functions
(`ArgumentNames`, `ErpCall`, `GeneratedTools`, `ResponsePath`, `PluginRegistry`, `PluginPipeline`,
`LegacyMigration`). The function that a method is proved against, and each step of a
protocol, is pinned in turn by laws that say outright what comes of it; `CallRouting` holds those for manifests
that were not generated.

The main results:

- **Response cache.** In every interleaving of any number of calls with reconciliations, failed flushes
  included, each cached response was computed from exactly the current bindings of its tool
  (`CacheAlwaysCoherent`), for the keys that the flush pattern of their tool matches or trips over. Those are
  exactly the keys it holds for (`CoherentExactlyForFlushableKeys`): all keys of a tool whose name has none of
  the characters `*`, `?`, `[` and `\`, and none of a tool whose name ends with `[b]` (`WhichNamesAreSafe`). The
  pattern matcher is modelled as it works, committing to the leftmost place behind each star; that it accepts
  exactly what a pattern means, unless a class admits a slash, is proved (`MatcherIsExact`). Calls really can
  read their two phases from two snapshots (`TornReadIsReachable`); it is the generation that keeps such a
  response out. The generation is a 64-bit counter, and a comparison made any positive multiple of 2^64
  reconciliations late lets the response in (`FullLapsBreakCoherence`). What is cached or taken from the cache
  is, in every run, an answer that some call gave under that very key with the bindings it carries
  (`EveryAnswerWasGiven`), each call goes through the stages of its kind, and the snapshot is the last one a
  reconciliation completed with (`RunsTellTheirEnd`). Reconciling costs no other tool its cached responses
  (`UnboundStaysCached`), and from every state everybody can come to an end (`EverybodyCanFinish`).
- **Dispatch and withdrawal.** No connector call is running when a withdrawal is recorded, and the
  records are numbered without gaps (`WithdrawalWaitsForDispatchedCalls`). Each dispatch happens while its
  content is the active registration in every run of harmless steps (`DispatchOnlyWhileActive`). A registration
  is harmless unless it falls between the removal of that revision and its record, or, with other content,
  between a call's check and its commitment; a withdrawal is unless it matches another version than it
  removes. From any sound state exactly the harmless steps keep it sound, and exactly the others leave a way to
  an unauthorized dispatch (`HarmlessExactly`). Each kind of harm is reached by a run. The history tells each
  call's story, record by record, and its stage is where that story stands (`EveryCallTellsItsStory`): a
  connector call runs exactly between the commitment of its own call and its end (`RunningIsCommitted`,
  `EndedWasCommitted`).
- **Store, registry, reconciliation.** From any sound registry a successful pass brings exactly the active rows
  into force, in whatever order they come; a second pass finds nothing to do
  (`ToolServer.Server.Reconcile`). A pass whose flush works runs to its end exactly if all active rows can be
  registered. Over every run of applied and deleted tools and passes, whatever fails in it, store and registry each stay
  sound (`EveryRunStaysOrderly`), and the next successful pass puts them in step again as long as no request
  parted flag and pointer on the way (`EveryRunRecovers`); from any sound state it does so if and only if no
  served name is stuck with a version whose row is in force but does not serve (`SuccessfulPassRestores`).
  Runs without failures never get out of step (`EveryRunStaysInSync`). What each failure costs is stated exactly: a withdrawal whose store
  write fails (`FailedDeleteBreaksExactly`, `TicksDoNotRepair`), a resource that is admitted but cannot be
  registered (`AdmissionPoisonsExactly`, `PoisonStaysUntilDeleted`), and an apply that parts flag and pointer
  (`ApplyKeepsAgreedExactly`), which takes a system that a failure has put out of step (`InSyncNeverParts`,
  `StaleServingIsReachable`). A change of the rows is never overlooked (`ChangesAreNotOverlooked`). A stored
  revision keeps its content and the record of its first admission over every run (`ContentIsImmutable`,
  `FirstRecordStands`), and which revision serves after an admission is stated outright (`WhoServes`).
- **Listing.** While the published names cover the registry, the filter leaves exactly one alias per served name
  and one exact name per active revision (`ListingIsExact`), of which clients see the aliases only, unless exact
  names are advertised (`ClientsSeeExactly`). Every change of the registry keeps that cover,
  except the withdrawal of a "tool" named by the exact name of an active revision
  (`RefreshRestoresCoverExactly`, `WithdrawingAnAliasUnpublishes`).
- **Bounded cache.** The map and the recency list agree after every operation, the eviction loop ends because
  of that, and the whole refines a plain sequence with expiry; the recency window is exact
  (`RecencyWindow`, `RecencyWindowIsExact`), and over every run an answer is the value last stored under that
  key, within its time (`AnswersAreLastStored`).
- **Generated tools.** Arguments of one operation get distinct names that do not depend on any order
  (`NamesAreDetermined`), and a call sends every value under its original ERP name in its original place, loses
  none and adds none (`CallSendsWhatIsIntended`), with one exception: a value for a JSON body property whose
  name is empty is taken for the whole body. From the document to the request: a parameter's value arrives under
  its name where the document puts it (`ParameterArrives`, `BodyPartArrives`). Any other manifest over a template
  without nested braces is routed as stated outright, in whatever order (`CallIsRouted`), the older ones without
  locations among them (`UnlocatedCall`).
- **Plugins.** A call's bindings are exactly the effective ones, in the order of priority and name
  (`CallsFindEffectiveBindings`). A whole call, with or without raw plugins, comes to what the flow through all
  its plugins yields, and each failure is blamed on the first binding that gave no answer
  (`YieldedValueIsSettled`, `CapturedResponseFlows`).
- **Paths.** The parser accepts exactly the paths of the grammar, and reads them as it says (`ParseIsTheGrammar`).
- **Limits, retries, streams, migration, names and patterns.** See the table.

Where the code does not do what one would expect, the code was kept and a lemma names the input. Beside it
stands the lemma that says exactly when it happens:

| input | condition |
|---|---|
| `FullLapsBreakCoherence` | `InvariantKeptExactly` |
| `UnflushableKeyGoesStale`, `FlushMissesItsAim` | `CoherentExactlyForFlushableKeys`, `LiteralFlushReaches` |
| `SwappingContentBreaksAuthority`, `ConstraintWithdrawalBreaksAuthority`, `UnlockedRegistrationBreaksAuthority` | `HarmlessExactly` |
| `WithdrawingAnAliasUnpublishes`, `AnAliasToWithdraw` | `RefreshRestoresCoverExactly` |
| `StalePointerSurvives`, `StaleServingIsReachable` | `ApplyKeepsAgreedExactly`, `SuccessfulPassRestores` |
| a failed store write behind a withdrawal | `FailedDeleteBreaksExactly` |
| an admitted version that is no semantic one | `AdmissionPoisonsExactly` |
| `NamelessBecomesWholeBody` | `CallSendsWhatIsIntended` |
| `BoundOriginsLeaveAStaleDigest` | `DigestAfterAdoption` |

`AdmitKeepsAnOldDoubleServing` is no such input, as no run leads to its rows: it shows that
`AdmitLeavesOneServing` needs its premise, and `AdmitServesOneExactly` says how far.

`dafny verify dfyconfig.toml` checks the whole project.

## Model

| member | source | states |
|---|---|---|
| CacheProtocol.CacheAlwaysCoherent | internal/mcp/middleware.go:425-486 | In every reachable state outside the write lock, each cached entry and each hit in progress under a flushable key carries exactly the current bindings of its tool in both phases, unless a call compared generations a positive multiple of 2^64 bumps late. |
| CacheProtocol.CoherentExactlyForFlushableKeys | internal/cache/flush.go:65-77 | What is cached under a key is always current if and only if the flush pattern of the key's tool matches the key or is malformed. |
| CacheProtocol.WhichNamesAreSafe | internal/mcp/server.go:476-482 | Every key of a tool whose name is literal to the pattern language is always current; no key is of a tool whose name ends, behind a literal beginning, with [b] or with a class between stars that admits a slash. |
| CacheProtocol.StepKeepsInvariant | internal/mcp/server.go:468-483 | Every atomic step of a call, the reconciler or the backend keeps the protocol invariant, failed flushes included. |
| CacheProtocol.InvariantKeptExactly | internal/mcp/middleware.go:476-478 | A step keeps the invariant if and only if it is not a comparison made a positive multiple of 2^64 bumps late. |
| CacheProtocol.ReplaceKeepsCoherence | internal/mcp/plugin_registry.go:29-44 | Replacing the snapshot after a complete flush leaves no entry computed from other bindings. |
| CacheProtocol.UntargetedHasNoBindings | internal/mcp/plugin_api.go:427-450 | A tool the flush does not target has no bindings before or after, so its entries may stay. |
| CacheProtocol.TornReadIsReachable | internal/mcp/plugin_pipeline.go:59-65 | A run in which one call reads its raw bindings from one snapshot and its after bindings from the next. |
| CacheProtocol.FullLapsBreakCoherence | internal/mcp/middleware.go:476-478 | After any positive multiple of 2^64 bumps the comparison succeeds for a stale response, which is then cached. |
| CacheProtocol.EveryAnswerWasGiven | internal/mcp/middleware.go:425-486 | In every run each cached entry, and each hit in progress, is an answer that some call with that key has given, tagged with the bindings that call read. |
| CacheProtocol.RunsTellTheirEnd | internal/mcp/middleware.go:425-486 | After every run the snapshot is the one of the last reconciliation completed, and each call stands where its steps have brought it: a hit executes nothing, a miss executes and then fails or responds, a response is stored only if its comparison held, which is if and only if the bumps since it noted the generation are a multiple of 2^64. |
| CacheProtocol.StoredIsServed | internal/mcp/middleware.go:447-455 | A response just stored is what a probe of its key then takes. |
| CacheProtocol.UnboundStaysCached | internal/mcp/server.go:468-483 | While no snapshot binds plugins to a tool, and names are literal and without colons, its entries stay cached until they are forgotten. |
| CacheProtocol.CallsGoOn | internal/mcp/middleware.go:425-486 | Every call can take its next step at once, a cached key letting it hit; only to store a response it waits until no reconciler holds the lock. |
| CacheProtocol.ReconcilerGoesOn | internal/mcp/server.go:468-483 | Each flush can fail, having deleted any of the keys it reaches, or succeed unless its pattern is malformed; behind the last one the snapshot is replaced exactly if none failed. |
| CacheProtocol.EverybodyCanFinish | internal/mcp/middleware.go:425-486 | From every state some run brings the reconciler and all calls to their end: the protocol has no deadlock. |
| Authority.WithdrawalWaitsForDispatchedCalls | internal/mcp/server.go:528-542 | In every run the records are numbered consecutively and no connector call is running when a withdrawal is recorded. |
| Authority.DispatchOnlyWhileActive | internal/mcp/authority.go:86-106 | In every run of harmless steps each committed dispatch happens while its digest is the one last registered and not withdrawn since, and each recorded withdrawal is of a revision then active, with its content. |
| Authority.HarmlessExactly | internal/mcp/server.go:528-548 | From a sound state a step is harmless if and only if it keeps the state sound, and if and only if harmless steps behind it never end with an unauthorized dispatch. |
| Authority.FreshCallEndangers | internal/mcp/authority.go:74-106 | Once an active revision counts as withdrawn, a new call of it is dispatched, from any state whatever. |
| Authority.DisciplinedRunIsHarmless | internal/mcp/server.go:621-664 | Registering under the lifecycle lock, without swapping active content, and withdrawing known versions is harmless. |
| Authority.EveryCallTellsItsStory | internal/mcp/authority.go:70-110 | In every run the records and marks of a call are those of a story (denied by origin; or held at the barrier, then refused, or committed and ended), and its stage is the one where that story stands. |
| Authority.RunningIsCommitted | internal/mcp/authority.go:99-106 | A call whose connector runs has recorded its commitment, and no end behind it. |
| Authority.EndedWasCommitted | internal/mcp/authority.go:99-110 | A connector call that has ended was committed before. |
| Authority.RecordsNameWhatWasResolved | internal/mcp/authority.go:70-106 | Every record of a call names the revision and digest the call resolved. |
| Authority.CheckIsExact | internal/mcp/authority.go:86-98 | The check admits a call if and only if the history says that its revision is active with its content, from any sound state. |
| Authority.HolderStays | internal/mcp/server.go:528-548 | The lifecycle lock stays with one holder until it is released, and the withdrawals recorded meanwhile are its own. |
| Authority.EverybodyCanFinish | internal/mcp/authority.go:70-110 | From every state some run brings the controller and all calls to their end: the two locks do not deadlock. |
| Authority.StepKeepsSequence | internal/mcp/authority.go:182-194 | A record draws the number after the last one, whoever draws it. |
| Authority.SwappingContentBreaksAuthority | internal/mcp/server.go:638-656 | Registering other content over an active revision between a call's check and its commitment breaks the guarantee. |
| Authority.ConstraintWithdrawalBreaksAuthority | internal/mcp/server.go:533-540 | A withdrawal requested by a version constraint removes nothing but records the withdrawal of the revision it matched, which stays callable. |
| Authority.UnlockedRegistrationBreaksAuthority | internal/mcp/server.go:621-623 | A registration outside the lifecycle lock can fall between a removal and its record. |
| RecencyList.RunStaysBounded | internal/cache/memory_backend.go:56-80 | Over every run keys stay distinct and the number of records within the limit. |
| RecencyList.RecencyWindow | internal/cache/memory_backend.go:51-78 | A key just stored or hit is answered with its value as long as fewer than the limit of other keys are touched and it is neither removed nor expired. |
| RecencyList.RecencyWindowIsExact | internal/cache/memory_backend.go:51-78 | While nothing is removed otherwise, the front record is kept if and only if fewer than the limit of other keys are touched. |
| RecencyList.AnswersAreLastStored | internal/cache/memory_backend.go:38-80 | After every run an answer is the value last stored under that key and not discarded since, and its time to live has not passed. |
| MemoryBackend.MemoryBackend.Get | internal/cache/memory_backend.go:38-53 | The answer and the new list are those of the recency sequence; an expired record is removed, a live one moves to the front. |
| MemoryBackend.MemoryBackend.Set | internal/cache/memory_backend.go:56-80 | The new contents are the stored record in front of the others, cut at the limit; map and list still agree. |
| MemoryBackend.MemoryBackend.Evict | internal/cache/memory_backend.go:76-78 | The eviction loop ends with exactly the records within the limit, because map and list hold the same keys. |
| MemoryBackend.MemoryBackend.Delete | internal/cache/memory_backend.go:83-95 | Exactly the named keys go, and the count is the number that were there. |
| MemoryBackend.MemoryBackend.Scan | internal/cache/memory_backend.go:98-118 | The keys returned are the matching ones that were live; only expired records are removed. |
| MemoryBackend.MemoryBackend.Stats | internal/cache/memory_backend.go:132-143 | The count is that of the records left after removing expired ones from the back. |
| MemoryBackend.MemoryBackend.FlushAll | internal/cache/memory_backend.go:121-129 | Nothing is left, and the count is what was there. |
| MemoryBackend.ScanAndDelete | internal/cache/flush.go:79-95 | After scanning and deleting in batches of 100 no key the pattern matches is left, and the others stand in their order. |
| MemoryBackend.RemainingUnmatched | internal/cache/flush.go:79-95 | Purging the scanned keys leaves no record the pattern matches. |
| MemoryBackend.NextBatch | internal/cache/flush.go:86-92 | A batch of distinct keys meets none of the batches before it, so the counts add up. |
| GlobPattern.MatcherIsExact | internal/cache/memory_backend.go:98-118 | The matcher, which never gives up a place it has chosen, accepts only what the pattern means, and all of it if no class admits a slash. |
| GlobPattern.LiteralStarMatches | internal/cache/memory_backend.go:98-118 | A literal text followed by a star matches exactly what begins with the text and has no slash behind it, in the full pattern grammar with classes and escapes. |
| GlobPattern.WrittenIsRead | internal/cache/memory_backend.go:108-112 | Every list of terms, classes with at least one range, has a pattern that reads as that list. |
| GlobPattern.SingleTermMatches | internal/cache/memory_backend.go:108-112 | A question mark stands for one character but a slash, an escaped character for itself, a class for one character in its ranges or, negated, in none. |
| CacheKeys.LiteralFlushReaches | internal/cache/flush.go:65-77 | For a literal tool name the flush reaches exactly the keys that begin with the name and a colon and have no slash behind them. |
| CacheKeys.FlushReachesExactlyItsTool | internal/cache/flush.go:65-77 | Among names without colons, a literal one reaches a key if and only if it is a key of its own tool. |
| CacheKeys.BracketNameMissesItsKeys | internal/cache/flush.go:69-70 | The flush of a tool whose name ends with [b] misses every key of that tool, without an error. |
| CacheKeys.SlashedNameMissesItsKeys | internal/cache/flush.go:69-70 | So does that of a name ending with a class between stars that admits bracket and slash, as the matcher commits to the bracket. |
| CacheKeys.UnclosedBracketIsMalformed | internal/cache/memory_backend.go:108-112 | The flush of a name with an unclosed bracket fails at every key it meets. |
| CacheKeys.ScopesAreParts | internal/cache/manager.go:156-164 | The scope of any permitted role holds neither colon nor slash. |
| CacheKeys.ScopesCoincideExactly | internal/cache/manager.go:156-164 | Callers share responses exactly if the tool is read-only or they have one role, a role called anonymous counting as none. |
| CacheKeys.KeysAreDistinct | internal/cache/manager.go:125-130 | Keys of a revision agree only if tool, revision, role scope and argument hash do, whatever the tool is called. |
| CacheKeys.SlashedFits | internal/cache/flush.go:69-70 | As it reads, the pattern of that name fits those keys, so the premise of MatcherIsExact is needed. |
| CacheKeys.FlushMissesItsAim | internal/cache/flush.go:69-70 | For every literal beginning: a star or a colon behind it lets a flush reach another tool's keys, a pair of brackets lets it miss its own. |
| ToolResource.DigestCoversExecutableContent | internal/mcp/admission.go:50-72 | Digests of the cleared copies are equal exactly if identity, module and content are. |
| AdmissionStore.Store.Admit | internal/mcp/store.go:188-279 | The new rows are the admitted row and its demoted siblings, or all old rows if the content conflicts. |
| AdmissionStore.AdmitLeavesOneServing | internal/mcp/store.go:251-271 | After a successful admission its name has exactly one serving, active row. |
| AdmissionStore.RunKeepsSound | internal/mcp/store.go:188-279 | Every run of admissions and deletions keeps at most one serving row per name, serving rows active, digests faithful. |
| AdmissionStore.ContentIsImmutable | internal/mcp/store.go:232-245 | A run without a hard deletion of a revision keeps its executable content. |
| AdmissionStore.ChangedContentIsRefused | internal/mcp/store.go:237-239 | Other content for a stored revision is refused in any reachable state and changes nothing. |
| AdmissionStore.DeleteNeverFallsForward | internal/mcp/store.go:530-540 | Withdrawing the serving row leaves its name without one. |
| AdmissionStore.AdmitServesOneExactly | internal/mcp/store.go:251-271 | An admission leaves its name with exactly one serving row if and only if the admitted row serves or the name had exactly one before. |
| AdmissionStore.AdmitKeepsAnOldDoubleServing | internal/mcp/store.go:251-260 | Rows outside the invariant for which it does not. |
| AdmissionStore.FirstRecordStands | internal/mcp/store.go:240-245 | A run without a hard deletion of a revision keeps its admission record, whoever submits the same resource again. |
| AdmissionStore.FirstAdmissionIsRecorded | internal/mcp/store.go:240-250 | After any such run a row first admitted carries the actor of that admission, or "control-plane-operator" for want of one. |
| AdmissionStore.AdmissionChangesOnly | internal/mcp/store.go:232-279 | The admitted row is the resource as submitted but for digest, record and serving mark; siblings change in their serving mark only, other names not at all. |
| AdmissionStore.WhoServes | internal/mcp/store.go:246-271 | After an admission the serving row is the admitted one if it asks to serve or nobody served, else the one that served. |
| AdmissionStore.ServingIsTaken | internal/mcp/store.go:246-271 | On any rows whatever: the admitted row serves if and only if it asks to, served before, or no other active row of its name serves, and then no sibling does. |
| AdmissionStore.DeletionWithdraws | internal/mcp/store.go:530-552 | A soft deletion makes exactly that row inactive and unserving, a hard one removes exactly it. |
| ToolRegistry.Registry.SetServing | internal/mcp/registry.go:140-157 | Selects an active version: exactly its entry is flagged and pointed to; otherwise nothing changes. |
| ToolRegistry.Registry.AddRevision | internal/mcp/registry.go:37-62 | The new state after adding a revision, with or without the serving default. |
| ToolRegistry.Registry.Resolve | internal/mcp/registry.go:67-119 | The exact active revision, nothing if it is inactive, else the best match of a constraint, else the serving revision. |
| ToolRegistry.Registry.ListActive | internal/mcp/registry.go:200-212 | Every active revision once. |
| ToolRegistry.RunKeepsSound | internal/mcp/registry.go:28-62 | Over every run a pointer leads to an active entry and a flagged entry is pointed to; without the programmatic entry point the pointed entry is flagged. |
| ToolRegistry.AddKeepsAgreedExactly | internal/mcp/registry.go:53-60 | Adding keeps flags and pointers in step if and only if it is not the programmatic re-adding, unflagged, of the version its name is served by. |
| ToolRegistry.AdditionChangesOnly | internal/mcp/registry.go:37-62 | An added revision is registered as given and its siblings stay, both up to the serving flag, and which version serves the name afterwards is stated outright; other names stand. |
| ToolRegistry.RemovalChangesOnly | internal/mcp/registry.go:174-184 | A removed revision stays registered, neither active nor serving, and its name loses its pointer exactly if that led to it; nothing else changes. |
| ToolRegistry.LookupFinds | internal/mcp/registry.go:67-119 | A lookup answers with an active revision of the name only: the serving one, the exact one, or of those that satisfy the constraint one of highest precedence; when it answers at all is an equivalence. |
| QualifiedNames.DecodeRoundTrip | internal/mcp/registry.go:215-225 | Unpadded base64url decoding recovers every encoded version. |
| QualifiedNames.QualifiedNameRoundTrip | internal/mcp/registry.go:215-230 | An exact name decodes to its name and version, whatever the name. |
| QualifiedNames.AliasIsNotQualified | internal/mcp/server.go:1102-1104 | An admissible name is never read as, nor equal to, an exact name. |
| QualifiedNames.EncodingIs | internal/mcp/registry.go:215-217 | Each three bytes of a version become four symbols of the URL-safe alphabet, as one number to the base 64; what a shorter rest does not need is left off. |
| QualifiedNames.DecodesExactly | internal/mcp/registry.go:225-228 | Line breaks aside, a text decodes if and only if it consists of that alphabet and no symbol is left over. |
| QualifiedNames.LineBreakIsSkipped | internal/mcp/registry.go:225-225 | A carriage return or line feed anywhere in the encoded text is as if it were not there. |
| QualifiedNames.ParsedExactly | internal/mcp/registry.go:220-230 | A text is read as a revision if and only if, cut at its last ".rev_", it has a name before and the encoding of a version behind it, neither empty. |
| ToolServer.Server.RegisterTool | internal/mcp/server.go:625-664 | Registers a tool exactly if it is accepted, and republishes its name, or changes nothing; a complete listing stays complete. |
| ToolServer.Server.AcceptedExactly | internal/mcp/server.go:1085-1110 | A resource is accepted exactly if its content passes the checks, its version is a semantic one and its name is not empty and without ".rev_". |
| ToolServer.Server.DeregisterTool | internal/mcp/server.go:528-536 | Deactivates the exact revision and republishes the name, whatever it is; a complete listing stays complete if and only if the name is not the exact name of an active revision. |
| ToolServer.Server.Reconcile | internal/mcp/server.go:428-525 | A pass over sound rows succeeds exactly if it is skipped or the flush works and every active row is accepted; success brings the registry to the rows in every order of them and leaves served exactly the names that must be; failing or not, flags and pointers are not parted and nothing comes up that no row wants; a converged registry is left alone. |
| Reconciler.ExactIsDesired | internal/mcp/server.go:486-519 | A revision is live exactly if a row wants it, and its name is served by it exactly if that row says so. |
| Reconciler.ExactAgreesExactly | internal/mcp/server.go:498-503 | In a registry with exactly the desired revisions, flags and pointers agree if and only if every served name has a serving row. |
| Reconciler.InForceIsFaithful | internal/mcp/server.go:496-498 | With faithful digests the registered resource is the row itself, up to status text and admission record. |
| Reconciler.FoundIsInForceExactly | internal/mcp/server.go:496-498 | When the lookup answers with the digest and flag looked for, the row is in force if and only if its own version is registered. |
| Reconciler.FaithfulFindIsInForce | internal/mcp/server.go:496-498 | With faithful digests such an answer always means that the row is in force. |
| Reconciler.SkippedRowIsInForce | internal/mcp/server.go:496-498 | So does one where digests tell the revisions apart. |
| Reconciler.SweepConverges | internal/mcp/server.go:507-519 | Registering and then sweeping stale revisions yields the converged registry, and says exactly which names no row serves stay served. |
| Reconciler.StalePointerSurvives | internal/mcp/server.go:498-503 | Two programmatic additions of an unserving revision reach a registry in which a name stays served that no row serves, though the pass finds nothing to do. |
| Listing.ListingIsExact | internal/mcp/server.go:558-577 | While the published names cover the registry, a name outside the builtin ones is published and passes the filter if and only if it is the alias of a served name or the exact name of an active revision. |
| Listing.ClientsSeeExactly | internal/mcp/server.go:1047-1059 | Clients are then shown exactly the aliases of served names and, if advertised, the exact names of active revisions. |
| Listing.FilterKeepsLiveNames | internal/mcp/server.go:562-576 | Of whatever names of the registry are published, the filter keeps exactly the live ones. |
| Listing.RefreshRestoresCoverExactly | internal/mcp/server.go:695-718 | Republishing the one name that changed restores the cover if and only if that name is not the exact name of an active revision. |
| Listing.WithdrawingAnAliasUnpublishes | internal/mcp/server.go:997-1024 | A delete request that gives an exact name as the tool's name changes nothing in the registry but takes that active revision off the listing. |
| Listing.AnAliasToWithdraw | internal/mcp/server.go:707-711 | One registered revision suffices for that. |
| Listing.ListedNamesAreDistinct | internal/mcp/registry.go:215-217 | Distinct revisions have distinct exact names, none of them an alias. |
| ControlPlane.EveryRunStaysOrderly | internal/mcp/server.go:902-1043 | Over every run of requests, passes, other writes and restarts, whatever fails in it, store and registry keep their invariants. |
| ControlPlane.EveryRunRecovers | internal/mcp/server.go:421-525 | After any run from a system in step in which no request parted flag and pointer, every successful pass makes the registry what the rows ask for. |
| ControlPlane.SuccessfulPassRestores | internal/mcp/server.go:486-525 | A successful pass makes exactly the active rows live; it puts store and registry in step if and only if before it no name without a serving row was served by a version whose row was in force already. |
| ControlPlane.RestartRepairs | internal/mcp/server.go:405-419 | After a restart the first pass that counts the state as read puts store and registry in step. |
| ControlPlane.ApplyKeepsAgreedExactly | internal/mcp/server.go:938-951 | Applying a tool parts flag and pointer if and only if the admitted row does not serve while the registry serves its name by that version. |
| ControlPlane.InSyncNeverParts | internal/mcp/server.go:938-951 | With store and registry in step no request can do that. |
| ControlPlane.StaleServingIsReachable | internal/mcp/server.go:938-955 | Three steps from a system in step, one of them a rejected registration, lead to a settled state in which a name is served by a version whose row does not say so. |
| ControlPlane.FailedDeleteBreaksExactly | internal/mcp/server.go:1023-1036 | A withdrawal whose store write fails is a possible outcome of a delete request, and leaves store and registry in step if and only if the revision was not live. |
| ControlPlane.TicksDoNotRepair | internal/mcp/server.go:442-446 | And no number of later passes changes that, until some write or a restart comes, because the stored state is the one last read. |
| ControlPlane.AdmissionPoisonsExactly | internal/mcp/store.go:188-279 | After an admission all active rows can be registered if and only if the others could and the admitted resource can. |
| ControlPlane.PoisonStaysUntilDeleted | internal/mcp/server.go:500-502 | While an active row that cannot be registered is not deleted, it stays so, and no pass succeeds. |
| ControlPlane.ChangesAreNotOverlooked | internal/mcp/server.go:442-446 | When the rows have changed and the stored state counts as read, exactly the active rows are live. |
| ControlPlane.ApplyStoresOrNothing | internal/mcp/server.go:932-955 | A request to apply a resource that has any effect stores it, and leaves the registry alone if the resource cannot be registered. |
| ControlPlane.DeleteUnregisters | internal/mcp/server.go:1023-1041 | A request to delete a revision that has any effect leaves it unregistered, and its row untouched, inactive, or gone as asked. |
| ControlPlane.EveryRunStaysInSync | internal/mcp/server.go:932-955 | From a system in step, every run whose requests are refused or go well keeps the registry equal to the store. |
| ControlPlane.HandlingKeepsInSync | internal/mcp/server.go:1023-1041 | One such request, its immediate change and the pass that follows or is skipped, keeps store and registry in step. |
| ControlPlane.InSyncMeans | internal/mcp/server.go:421-426 | In step, a revision is live exactly if its row is active, its entry is that row up to status text and admission record, and it serves exactly if its row says so. |
| ArgumentNames.FirstFree | internal/idp/generator.go:615-627 | The unbounded suffix search ends with the first candidate not in use. |
| ArgumentNames.FinalizeArguments | internal/idp/generator.go:577-630 | Fails if and only if two arguments aim at one ERP parameter; otherwise names are distinct, unique source names are kept, any other is the first candidate left. |
| ArgumentNames.NamesAreDetermined | internal/idp/generator.go:599-613 | Any two namings that meet the contract are equal, however ties were ordered. |
| ArgumentNames.SettledNameIs | internal/idp/generator.go:599-627 | A name is the source name unless another argument shares it; then the place is added, as in id__query, and a number from 2 up if that is taken. |
| ArgumentNames.SkippedCandidateIsKeptName | internal/idp/generator.go:619-624 | A candidate is passed over only in favour of a kept source name. |
| ArgumentNames.MergeParameters | internal/idp/generator.go:457-479 | One parameter per place is left, the last one listed, and the last of the operation's at a place is always kept. |
| ArgumentNames.GeneratedArgumentsNeverCollide | internal/idp/generator.go:577-587 | The collision error cannot strike an operation whose parameters were merged. |
| ArgumentNames.ArgumentsAreComplete | internal/idp/generator.go:268-344 | An operation has one argument per parameter and per body property, or one for a body without properties, each with its name and place, and no others. |
| ArgumentNames.DecimalIsInjective | internal/idp/generator.go:624-624 | Distinct numbers have distinct numerals. |
| PathTemplate.PathEscapeRoundTrip | internal/mcp/tool.go:270-270 | The escaped value gives the value back. |
| PathTemplate.PathEscapeIsPlain | internal/mcp/tool.go:251-251 | An escaped value holds no brace, slash, question mark or hash. |
| PathTemplate.EscapedByteIs | internal/mcp/tool.go:270-270 | Letters, digits and ten marks stand for themselves, any other byte is a percent sign and two capital digits to the base 16. |
| PathTemplate.ReplaceFillsHole | internal/mcp/tool.go:266-270 | Replacing a placeholder in the text fills exactly that hole of a template without nested braces. |
| PathTemplate.ContainsFindsHole | internal/mcp/tool.go:266-269 | The text contains the placeholder if and only if the template has the hole. |
| PathTemplate.InTurnIsAtOnce | internal/mcp/tool.go:240-270 | Replacing placeholders one after the other, in any order, equals filling all holes at once. |
| ErpCall.PrepareERPCall | internal/mcp/tool.go:221-300 | The loop over the arguments computes the request, or the first error, of routing them one by one. |
| GeneratedTools.BuildExecution | internal/idp/generator.go:348-364 | The manifest has exactly one entry per argument; the body argument is the last one of the body's source. |
| GeneratedTools.GeneratedPlansAreValid | internal/idp/generator.go:268-347 | Every valid document leads to arguments the routing proof covers. |
| GeneratedTools.BodyArgumentIs | internal/idp/generator.go:361-363 | The manifest marks a body argument exactly if it is the whole body or the nameless property. |
| GeneratedTools.CallSendsWhatIsIntended | internal/mcp/tool.go:240-300 | For every generated tool, argument map and order, the request is exactly the intended one if and only if no value is supplied for a body property without a name. |
| GeneratedTools.NamelessBecomesWholeBody | internal/mcp/tool.go:276-279 | A value for a nameless body property becomes the whole body, so the request is not the intended one. |
| GeneratedTools.NamedValueArrives | internal/mcp/tool.go:272-275 | A supplied query or header value is in the request under its ERP name. |
| GeneratedTools.BodyValueArrives | internal/mcp/tool.go:276-299 | A supplied body value is the body or its field of that name. |
| GeneratedTools.PathValueArrives | internal/mcp/tool.go:265-270 | A supplied path value stands, escaped and recoverable, wherever its placeholder stood. |
| GeneratedTools.BodyIsIntended | internal/mcp/tool.go:285-300 | The body is the whole value, or the fields if some value is meant for one, and empty exactly if none is. |
| GeneratedTools.ParameterArrives | internal/idp/generator.go:268-364 | For every valid document a value for one of its parameters arrives under that name in the query, header or path, as the document says. |
| GeneratedTools.BodyPartArrives | internal/idp/generator.go:300-364 | And a value for a property of its body, or for its body, in the body. |
| CallRouting.CallIsRouted | internal/mcp/tool.go:240-300 | For every manifest over a template without nested braces, argument map and order: the request has each value where its location, or without one the older rule, puts it, and nothing else, the last one listed standing where two meet; or the first argument that has no place is the error. |
| CallRouting.EmptyEndpointIsRefused | internal/mcp/tool.go:221-240 | The error of a missing endpoint is reported if and only if there is none. |
| CallRouting.UnlocatedCall | internal/mcp/tool.go:248-262 | Without locations, arguments with a placeholder fill it; the others are exactly the query of a GET with an empty body, or exactly the body fields of any other method. |
| CallRouting.BracedNameFillsTwoHoles | internal/mcp/tool.go:265-270 | A mapped name with braces can fill what no placeholder asked for, so the premise on names is needed. |
| ConcurrencyLimiter.RunConserves | internal/mcp/middleware.go:64-130 | Over every run in which permits are released once, an entry's active count is its outstanding permits, within its limit, and the table within its cap. |
| ConcurrencyLimiter.RoomKeepsHeld | internal/mcp/middleware.go:92-101 | Neither idle eviction nor a changed limit drops an entry with a permit outstanding. |
| ConcurrencyLimiter.EntriesAreApart | internal/mcp/middleware.go:64-72 | Two callers share an entry if and only if they call one tool and, where the limit is per principal, are one principal. |
| ConcurrencyLimiter.GrantedExactly | internal/mcp/middleware.go:73-112 | A call is granted if and only if fewer permits than the limit are outstanding for its entry or, for a new or changed entry, none is and there is room in the table, idle entries not counted. |
| ConcurrencyLimiter.FreshEntriesStay | internal/mcp/middleware.go:92-97 | An entry survives what other callers do for fifteen minutes after its last permit was given back. |
| ConcurrencyLimiter.Limiter.Acquire | internal/mcp/middleware.go:64-112 | A permit is granted exactly if the table says so; entries with permits outstanding stay the same objects. |
| ConcurrencyLimiter.Limiter.Insert | internal/mcp/middleware.go:102-111 | The send on a new entry's channel finds a free slot and cannot block. |
| ConcurrencyLimiter.Limiter.Release | internal/mcp/middleware.go:114-130 | Frees one slot of the permit's entry if that entry is still in the table. |
| PluginPipeline.ExecuteTool | internal/mcp/plugin_pipeline.go:59-83 | The outcome of a call with any raw and after-response plugins, computed by the loops. |
| PluginPipeline.SuccessIsAccepted | internal/mcp/plugin_pipeline.go:59-267 | Whatever the plugins answer, a successful result satisfies the output schema. |
| PluginPipeline.SuccessTakesTwoHundreds | internal/mcp/plugin_pipeline.go:146-150 | No plugin turns a call without a 2xx response into a success. |
| PluginPipeline.AfterPhaseIsAllOrNothing | internal/mcp/plugin_pipeline.go:186-233 | The value becomes the accepted output of all bindings in turn; otherwise the first binding without an output, or the last one, decides between the untouched value and an error. |
| PluginPipeline.YieldedValueIsSettled | internal/mcp/plugin_pipeline.go:66-83 | Without raw plugins, what a native handler or a 2xx response yields is an error result if the schema refuses it and otherwise settled by all after-response plugins. |
| PluginPipeline.NothingYielded | internal/mcp/plugin_pipeline.go:66-83 | Without a value the call is an error result if tool or ERP system reported an error, and an error otherwise. |
| PluginPipeline.NothingCaptured | internal/mcp/plugin_pipeline.go:85-120 | Without a response to work on the first raw plugin is blamed, unless the ERP call has a fault to report. |
| PluginPipeline.CapturedResponseFlows | internal/mcp/plugin_pipeline.go:85-184 | The captured response flows through all raw plugins, the result through the response path and then the after-response plugins; each failure is blamed on the first binding without an answer, and a response that is no 2xx one is an error result. |
| PluginRegistry.BuildSnapshot | internal/mcp/plugin_registry.go:107-148 | Each tool with admitted bindings is filed with exactly those, in running order, and no other tool is. |
| PluginRegistry.OrderIsStable | internal/mcp/plugin_registry.go:138-147 | The running order is sorted by priority and name, a permutation, and keeps tied bindings as they were listed. |
| PluginRegistry.SnapshotIsWellFormed | internal/mcp/plugin_registry.go:107-148 | A built snapshot files each binding under the revision it names, in running order. |
| PluginRegistry.PhasesStaySorted | internal/mcp/plugin_registry.go:79-88 | Choosing a phase keeps that order and exactly the bindings of the phase. |
| PluginRegistry.FiledBindingsAreEffective | internal/mcp/plugin_registry.go:107-148 | A filed binding is active and listed, as are its plugin and tool, and for raw responses the two suit each other. |
| PluginRegistry.EffectiveBindingsAreFiled | internal/mcp/plugin_registry.go:107-148 | Where active plugins and tools are listed once, every such binding is filed under its tool. |
| PluginRegistry.CallsFindEffectiveBindings | internal/mcp/plugin_registry.go:79-88 | There a call finds exactly the effective bindings of its revision and phase, in the order of priority and name. |
| ConnectorRetry.Call | internal/connector/client.go:356-430 | On return every response obtained has been closed exactly once except the one returned; which one is returned, and how many attempts are made, at most three for safe methods and one for others. |
| ConnectorRetry.RetriesAreCautious | internal/connector/client.go:363-415 | Another attempt is made only after a missing or transient answer. |
| ConnectorRetry.TransientOnlyIfAsked | internal/connector/client.go:416-431 | A transient response reaches only callers that asked for it. |
| ConnectorRetry.OnlyReadsAreRepeated | internal/connector/client.go:37-44 | Of all methods, in whatever letters and space, only GET, HEAD and OPTIONS get three attempts, any other one. |
| ConnectorRetry.IsSpaceExactly | internal/connector/client.go:38-38 | What is trimmed off is the white space of Unicode, character by character. |
| ConnectorRetry.EffectsAreSentOnce | internal/connector/client.go:37-44 | POST, PUT, PATCH and DELETE are sent once. |
| ConnectorRetry.AttemptsEndExactly | internal/connector/client.go:363-415 | Another attempt is made if and only if one is left, every answer so far was missing, 429 or 5xx, and the caller has not given up. |
| ConnectorRetry.AnsweredExactly | internal/connector/client.go:416-431 | The call goes well if and only if the last attempt was answered for good or, for a caller that takes transient answers, any was answered. |
| ResponsePath.ParseResponsePath | internal/mcp/tool.go:516-562 | The parser, whose position strictly increases, computes the tokens of the path's grammar or fails. |
| ResponsePath.ParseRoundTrip | internal/mcp/tool.go:516-562 | The printed form of any list of keys and indices parses as that list. |
| ResponsePath.ResolveResponsePath | internal/mcp/tool.go:486-514 | The loop selects what the tokens select. |
| ResponsePath.ResolveInTurn | internal/mcp/tool.go:486-514 | Following two paths joined by a separator is following one and then the other. |
| ResponsePath.ParseIsTheGrammar | internal/mcp/tool.go:516-562 | A path is parsed if and only if it is spelled by segments, each a key or none and indices in brackets, joined by points, and it parses as their keys and indices. |
| ResponsePath.IndexIs | internal/mcp/tool.go:536-548 | An index is a decimal number that a 64-bit integer holds, with or without a plus sign; only zero may have a minus sign. |
| ResponsePath.StepSelects | internal/mcp/tool.go:486-514 | A key selects the field of that name, an index the item at that place counted from zero, and nothing else is selected. |
| FilterWriter.ToolListFilterWriter.Write | internal/mcp/filter_writer.go:28-46 | All complete lines are out, filtered and in order, and the tail is pending; or an error struck one line, and the lines behind it are pending. |
| FilterWriter.WriteAll | internal/mcp/filter_writer.go:90-104 | The whole payload is written in however many parts, or a prefix of it before an error. |
| FilterWriter.ChunksDoNotMatter | internal/mcp/filter_writer.go:28-46 | However a stream is cut into writes, output and pending tail are the same. |
| FilterWriter.LinesAreTheText | internal/mcp/filter_writer.go:34-39 | Lines and tail put together are the text. |
| FilterWriter.FilteredLinesComeOut | internal/mcp/filter_writer.go:34-46 | What comes out, read by line, is the filter's text for each line that went in, in order. |
| LegacyMigration.MigrateLegacyTools | internal/mcp/store.go:281-390 | Migrates all rows as specified, or none if an origin cannot be derived; up-to-date rows are not saved again. |
| LegacyMigration.LatestLegacyRevision | internal/mcp/store.go:392-413 | The loop finds the first of the highest stable versions, or of the highest versions. |
| LegacyMigration.LatestIsLatest | internal/mcp/store.go:392-413 | The choice is the first of the highest stable versions, or of all readable ones if none is stable; there is none only if none is readable. |
| LegacyMigration.LegacyNameSettles | internal/mcp/store.go:350-371 | A name with a row that lacked digest or record stays served by the active row that alone serves it; else its latest active row alone serves it, and none does if no version can be read. |
| LegacyMigration.OtherNamesKeepTheirChoice | internal/mcp/store.go:350-353 | Names without legacy rows, and inactive rows, keep their serving flags. |
| LegacyMigration.MigrationIsIdempotent | internal/mcp/store.go:281-390 | Migrating migrated rows changes nothing. |
| LegacyMigration.DigestAfterAdoption | internal/mcp/store.go:329-345 | A row without a digest or with a matching one has a matching digest after the migration if and only if it was a legacy row or lacked no origins. |
| LegacyMigration.BoundOriginsLeaveAStaleDigest | internal/mcp/store.go:329-334 | An admitted row with a matching digest but without origins, whose digest no longer matches afterwards. |
| LegacyMigration.AdoptionChangesOnly | internal/mcp/store.go:323-347 | A row gains the origins it lacked and, if it lacked digest or record, a digest and the record it lacked; nothing else of it changes. |
| LegacyMigration.MigrationChangesOnly | internal/mcp/store.go:323-371 | A migrated row is the adopted row but for its serving mark. |

## Left out

- HTTP handlers' status codes, JSON and YAML encoding, SQL text, file locks, metrics, logging and notifications: the store is a map changed by atomic operations, cloning is copying.
- SHA-256: a digest is an injective image of the identity, the module and the content.
- Semantic-version parsing and constraint matching, JSON Schema validation, the circuit breaker and the retry scheduler: parameters, ranks in the reals, or arbitrary outcomes. A registered version is assumed to be a non-empty text of bytes.
- The Redis backend and token-bucket rate limiting: their libraries are not part of this model.
- Authentication, tokens, roles, redaction, credential resolution, transport policy, the CLI, the local MCP gateway and the web console.
- AutoFlush after write tools does not bump the generation, so no claim covers a read in flight across it; results for file-backed credentials are not claimed to stay uncached, as the bypass is decided before the generation is read.
- The characters of patterns and keys are compared one by one; texts that are not valid UTF-8, where the library's matcher works on runes and bytes by turns, are not considered.
- Cache keys of tools without a revision, which have one part less than those with one.
- MemoryBackend.MemoryBackend.MoveToFront: the doubly linked list is a sequence of element objects, so pointer surgery inside the list is not modelled.
- AdmissionStore.Store.Delete: reading and saving the row are one step; the handlers hold the lifecycle lock across them.
- ToolRegistry.Registry.Resolve: versions of equal precedence leave the choice open, as the source's map order does.
- The lookup by digest, whose answer depends on map order when two revisions of a name share a digest.
- ToolServer.Server.RegisterTool: the descriptor projection is one of the checks in `valid`; it cannot fail later for a registered revision because it does not depend on serving state.
- Builtin tool names are published outside the registry; a delete request that names one takes it off the listing until the server restarts.
- ControlPlane.EveryRunStaysOrderly: rows are those that admission and a complete migration leave, with digests that match their content; a row whose digest the migration left stale is not among them.
- ControlPlane.EveryRunRecovers: that a successful pass comes at all takes a working store, cache flush and acceptable rows, and is not promised.
- CacheProtocol.CacheAlwaysCoherent: a key's revision text stands for the tool's digest, which names one version.
- Which of several routing errors a call reports first: the source sorts argument names, the model takes any order.
- CallRouting.CallIsRouted: endpoints with nested braces, and mapped names that hold braces, are left out; `BracedNameFillsTwoHoles` shows what such a name can do.
- ErpCall.PrepareERPCall: ends with the request as prepared; the base-URL override, credentials and header-name canonicalization, under which header names differing only in case meet, are applied behind it.
- Reading the OpenAPI document, its schemas and references: the collected parameters and body shape are the input; document validation makes parameter names non-empty.
- ConcurrencyLimiter.Limiter.Release: callers are trusted to release a permit once, as the deferred release does; the run theorem states it as a premise.
- PluginPipeline.ExecuteTool: content types passed between plugins are reduced to whether the body is read as JSON.
- LegacyMigration.MigrateLegacyTools: filling in names and versions missing from a row's data, and the time of the admission record.
