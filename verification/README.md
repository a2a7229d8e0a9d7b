# Provider platform model

Dafny models of the provider services of the platform (`packages/platform-k8s`), and proofs
about them. `dafny verify dfyconfig.toml` checks everything.

| file | what it models |
|---|---|
| `text.dfy` | trimming, lower-casing, splitting, string order, sorting by a string key |
| `probe_lease.dfy` | the catalog-probe lease: a distributed lock over Lease objects behind an in-process singleflight, as interleaved steps and as code |
| `provider_store.dfy` | provider rows, the repository, the row mutations, and interleaved updates of rows |
| `probe_throttle.dfy` | the probe throttle kept in a provider row: decisions, one task as code, and all interleavings of tasks, status writes and row changes |
| `connect_session.dfy` | connect sessions: any number of concurrent reads against arbitrary OAuth answers and faults, and the runtime as code |
| `catalog_materializer.dfy` | rebuilding model catalogs from probed ids, and the syncer |
| `model_identity.dfy` | slugs, release suffixes, identity candidates |
| `base_url.dfy` | base-URL templates and the matcher for overrides |
| `session_cookie.dfy` | the cookie parser, printer and merge (section 4.2.1 and section 5.2 of RFC 6265) |
| `external_rule_sets.dfy` | rule-set normalisation and its projection to access sets |
| `aistudio_quota.dfy` | AI Studio rate limits, tier selection and usage |
| `mistral_billing.dfy` | Mistral prices, entry costs, cost rows and spending caps |

Protocols are state machines whose steps are single API requests or local steps; their
theorems quantify over every finite schedule. Code that updates state or loops is a method
proved against a function, and the theorems are about that function. What such a function
computes is stated once more by the texts, codes and positions it reads (lemmas ending in
`Reads` or `Exactly`), so that function and method cannot both be wrong in the same way.
Loops over Go maps pick keys in an arbitrary order, so what is proved of them holds for every
iteration order.

## What does not hold

Some promises one might expect are false of the code. Each has a lemma with the input or the
schedule, and one that says exactly when the promise holds.

- Lease exclusion between calls of one process that share a lease key but not a flight key
  (`TwoFlightsOneLease`; exactly then among timely runs, by `ExclusionExactly`), and for a holder
  that outlives its lease (`LateHolderIsJoinedAndDeletes`; over all runs exactly by `UntimedExclusionExactly`).
- A takeover does not refresh the acquire time, although the code tests for expiry to do so; it sets
  only a missing one (`TakeoverKeepsAcquireTime`).
- Row updates can overwrite each other (`OverlappingRenameLosesProbe`). An update that nobody disturbs
  is atomic (`UndisturbedUpdateIsAtomic`), and a disturbed one only if the row was changed back
  (`SplitUpdateIsAtomicExactly`).
- A finalised session resets the throttle (`ReconnectForgetsThrottle`), unless there was none
  (`FinalizeKeepsThrottleExactly`).
- A connection can be cleared by a concurrent stale save (`StaleSaveClears`), exactly by a caller
  without one of its own (`SaveKeepsConnectionExactly`).
- Slugs are not idempotent on tabs (`SlugNotIdempotentOnTabs`; exactly by `VendorSlugIdempotentExactly`
  and `ModelSlugIdempotentExactly`).
- The comment on identities promises the shortest candidate; the code takes the first that differs
  from the slug. Instruct models with a release are the exception (`InstructHidesFamily`), and the
  only one (`ShortestExactly`).
- The catalog and the model service choose different ids for a slug of whitespace alone
  (`ChoicesDifferOnTab`), and only then (`SameCanonicalIdExactly`).
- A template that repeats a token accepts no override (`RepeatedTokenAcceptsNothing`; exactly by
  `AcceptsExactlyInstances`).
- Service rule ids can repeat (`SharedDestinationRepeatsServiceId`; exactly by `ServiceIdsDistinctOnInput`).
- Price keys can collide (`PriceKeysCollide`; exactly by `PriceKeysAgreeExactly` and `MetricsSeparateExactly`).

## Model

| member | source | states |
|---|---|---|
| LeaseProtocol.MutualExclusion | packages/platform-k8s/internal/providerservice/providercatalogs/probe_lease.go:28-107 | In every interleaving of creates, gets, conditional updates, releases, crashes and clock steps of any number of calls, if each process has at most one call per lease name and every holder finishes its release within 300 s of the renewal it wrote, no two calls are between acquire and release of one lease |
| LeaseProtocol.ExclusionExactly | packages/platform-k8s/internal/providerservice/providercatalogs/probe_executor.go:73-90 | With singleflight in front and timely holders, all runs of a set of calls are mutually exclusive if and only if calls of one process that share a lease key share a singleflight key |
| LeaseProtocol.UntimedExclusionExactly | packages/platform-k8s/internal/providerservice/providercatalogs/probe_lease.go:28-107 | Without any promise about time, all runs of a set of calls are exclusive if and only if any two calls that share a lease share holder and flight |
| LeaseProtocol.BlankConcurrencyKeysSuffice | packages/platform-k8s/internal/providerservice/providercatalogs/probe_executor.go:142-165 | Requests without a concurrency key always meet that condition, so singleflight makes the lease exclusive for them |
| LeaseProtocol.FlightsHold | packages/platform-k8s/internal/providerservice/providercatalogs/probe_executor.go:73-90 | In every reachable state a process has at most one call under way per singleflight key, hence one per lease name when lease keys follow flight keys |
| LeaseProtocol.TwoFlightsOneLease | packages/platform-k8s/internal/providerservice/providercatalogs/probe_lease.go:91-120 | Without it exclusion is false even for timely runs: for any two calls of one process with the same lease key and different flight keys there is a run that puts both into the probe, because the holder name is per process |
| LeaseProtocol.LateHolderIsJoinedAndDeletes | packages/platform-k8s/internal/providerservice/providercatalogs/probe_lease.go:71-89 | Timeliness is needed too: a holder that outlives its lease is joined by another process, and its delete, which carries no version, then removes the other's lease |
| LeaseProtocol.OwnershipHolds | packages/platform-k8s/internal/providerservice/providercatalogs/probe_lease.go:49-107 | Under the two conditions, from a successful acquire until its own delete the stored lease names the holder and carries the renewal it wrote, in every state of every run |
| LeaseProtocol.NobodyElseLosesALease | packages/platform-k8s/internal/providerservice/providercatalogs/probe_lease.go:49-89 | No step of any run changes or removes the lease of a call that keeps holding it |
| LeaseProtocol.DeleteIsOwn | packages/platform-k8s/internal/providerservice/providercatalogs/probe_lease.go:71-89 | Every delete of a release removes a lease that is the deleter's own, renewal included, and nothing else |
| LeaseProtocol.UpdateIsNeverStale | packages/platform-k8s/internal/providerservice/providercatalogs/probe_lease.go:49-63 | An update that succeeds replaces exactly the lease that was fetched, and that lease is still not held by another at the moment of the write |
| LeaseProtocol.InvStep | packages/platform-k8s/internal/providerservice/providercatalogs/probe_lease.go:28-89 | Every enabled step keeps the invariant that ties stored leases, fetched snapshots and resource versions to the program counters |
| LeaseProtocol.LoneCreate | packages/platform-k8s/internal/providerservice/providercatalogs/probe_lease.go:28-47 | A call alone with no lease present acquires by its create, moving nothing else |
| LeaseProtocol.LoneTakeover | packages/platform-k8s/internal/providerservice/providercatalogs/probe_lease.go:49-107 | After a crash a lone acquire succeeds as soon as the lease is no longer held by another, in six steps and with its own renewal stored |
| LeaseProtocol.LoneRefusal | packages/platform-k8s/internal/providerservice/providercatalogs/probe_lease.go:49-56 | While another's lease has not expired a lone acquire is refused and leaves the whole state as it was |
| LeaseProtocol.LoneRelease | packages/platform-k8s/internal/providerservice/providercatalogs/probe_lease.go:71-89 | A release that nothing disturbs removes the lease exactly when it names the caller's process, and changes nothing else |
| LeaseProtocol.DeleteSawOwnLease | packages/platform-k8s/internal/providerservice/providercatalogs/probe_lease.go:71-89 | In every run, however slow the holders are, whoever deletes a lease saw it name its own process at the release step before and has been about to delete it ever since |
| LeaseProtocol.AttemptsBounded | packages/platform-k8s/internal/providerservice/providercatalogs/probe_lease.go:49-66 | No acquire of any run makes more than five attempts |
| ProbeRequest.FlightsShareExactly | packages/platform-k8s/internal/providerservice/providercatalogs/probe_executor.go:142-157 | Two requests share a singleflight key if and only if their protocol, trimmed base URL, trimmed surface and operation have the same pieces between zero characters; when none holds such a character, if and only if all four agree |
| ProbeRequest.LeasesShareExactly | packages/platform-k8s/internal/providerservice/providercatalogs/probe_executor.go:159-165 | Two requests share a lease if and only if the trimmed concurrency keys agree, or without any the flights do, or one's key is the other's flight key |
| ProbeLease.OwnedKeepsOut | packages/platform-k8s/internal/providerservice/providercatalogs/probe_lease.go:91-107 | The lease an acquire leaves keeps every other holder out for exactly 300 s after its renewal |
| ProbeLease.AcquireWritesOwnedLease | packages/platform-k8s/internal/providerservice/providercatalogs/probe_lease.go:31-61 | Both ways of acquiring, create and take-over of any lease, leave one that names the holder with its renewal and the 300 s duration; a created one was acquired now, a taken-over one keeps its version |
| ProbeLease.TakeoverKeepsAcquireTime | packages/platform-k8s/internal/providerservice/providercatalogs/probe_lease.go:57-61 | A takeover sets the acquire time if and only if the lease has none, since the expiry test already sees the new renewal |
| ProbeLeaseClient.Acquire | packages/platform-k8s/internal/providerservice/providercatalogs/probe_lease.go:28-69 | The acquire code with its retry loop, against a cluster that others change between its requests: success leaves the holder's lease with a renewal read during the call; undisturbed it succeeds exactly if the stored lease is not held by another, and a refusal changes no lease |
| ProbeLeaseClient.Release | packages/platform-k8s/internal/providerservice/providercatalogs/probe_lease.go:71-89 | The release among other clients sees the lease at one moment and, if it names the holder then, removes at a later moment what lies under its key, and otherwise nothing; undisturbed it removes the lease exactly when it names this holder |
| ProbeLeaseClient.Cluster.Create | packages/platform-k8s/internal/providerservice/providercatalogs/probe_lease.go:31-45 | The API server's create: succeeds exactly on an absent name and stores the object under a new version |
| ProbeLeaseClient.Cluster.Update | packages/platform-k8s/internal/providerservice/providercatalogs/probe_lease.go:62-63 | The API server's update: succeeds exactly when the version is the stored one; otherwise missing or conflict and nothing changes |
| ProviderStore.NormalizedIsKeyed | packages/platform-k8s/internal/platform/providerstate/store.go:184-201 | Normalising for read gives a trimmed, non-empty id that equals the requested id when one is given, and changes no other field |
| ProviderStore.Repository.Get | packages/platform-k8s/internal/platform/providerstate/store.go:62-78 | Get trims the id, refuses a blank one, and finds exactly the row stored under it |
| ProviderStore.Repository.Upsert | packages/platform-k8s/internal/platform/providerstate/store.go:80-92 | Upsert writes exactly one row, the input under its trimmed id, if and only if that id is not blank and the provider is valid |
| ProviderStore.Repository.Update | packages/platform-k8s/internal/platform/providerstate/store.go:94-123 | Undisturbed, Update replaces exactly the addressed row by the callback's result, re-keyed to the row's id; a blank id, a missing row, a refusing callback and one that names another id are told apart, and then nothing changes |
| ProviderStore.Repository.Delete | packages/platform-k8s/internal/platform/providerstate/store.go:125-137 | Delete removes exactly the addressed row, or reports a blank id or a missing row |
| ProviderStoreInterleaving.AlwaysKeyed | packages/platform-k8s/internal/platform/providerstate/store.go:80-137 | In every interleaving of split read-then-write updates, upserts and deletes, whatever the callbacks do, each row's key equals its payload's trimmed non-empty provider id |
| ProviderStoreInterleaving.WritesAreRequests | packages/platform-k8s/internal/platform/providerstate/store.go:80-137 | The upsert and remove steps of those interleavings write the trimmed row of a valid provider with an id, and remove the trimmed id, and nothing else |
| ProviderStoreInterleaving.OverlappingRenameLosesProbe | packages/platform-k8s/internal/platform/providerstate/store.go:94-123 | Updates are not atomic: for any stored row there is a schedule of two updates in which a rename puts back the probe state from before a recorded probe |
| ProviderStoreInterleaving.UndisturbedUpdateIsAtomic | packages/platform-k8s/internal/platform/providerstate/store.go:94-123 | For every schedule between the read and the write of an update in which no other step writes, upserts or removes the row, and for every callback, the row is still the one read and the write does to the rows exactly what the atomic Update would do |
| ProviderStoreInterleaving.SplitUpdateIsAtomicExactly | packages/platform-k8s/internal/platform/providerstate/store.go:94-123 | The writes of all callbacks are atomic updates if and only if the row, when still there, equals the one read; so a disturbed update is atomic only if the row was changed back |
| ProviderModel.RecordedOnlyItsKind | packages/platform-k8s/internal/providerservice/providers/mutation_runtime.go:46-68 | Recording one probe kind sets that kind's own field and leaves the other kind and every other field alone |
| ProviderMutations.Rename | packages/platform-k8s/internal/providerservice/providers/mutation_runtime.go:23-33 | Rename refuses a blank name and a provider without id or surface, and otherwise sets the trimmed display name of one row and nothing else |
| ProviderMutations.Remove | packages/platform-k8s/internal/providerservice/providers/mutation_runtime.go:70-75 | Removing refuses a provider without id or surface and otherwise deletes exactly its row |
| ProviderMutations.ApplyModelCatalog | packages/platform-k8s/internal/providerservice/providers/mutation_runtime.go:35-44 | Applying a catalog changes the models of one row and nothing else, and only if the models are valid |
| ProviderMutations.ApplyProbeStatus | packages/platform-k8s/internal/providerservice/providers/mutation_runtime.go:46-68 | Applying a probe status records one kind in one row; an unspecified kind is refused |
| ProbeThrottle.ScheduledProbesAreSpaced | packages/platform-k8s/internal/providerorchestration/probe_activities.go:86-215 | Over every run, retries, crashes, lost status writes, renames and catalog changes included, an execution begun by a schedule or a connect session starts at least the interval after each earlier recorded attempt, manual ones too, and after each earlier execution since whose start no record was lost |
| ProbeThrottle.WindowBound | packages/platform-k8s/internal/providerorchestration/probe_activities.go:86-215 | Any window of width W holds at most floor(W/I) + 1 executions begun by schedules and connect sessions, plus one for each lost record of an execution that started in the window |
| ProbeThrottle.InvStep | packages/platform-k8s/internal/providerorchestration/probe_activities.go:22-215 | Every step keeps the invariant that the row forbids schedule and connect probes until an interval after each recorded attempt |
| ProbeThrottle.OnlyItsOwnRecordMovesAThrottle | packages/platform-k8s/internal/providerservice/providers/mutation_runtime.go:23-68 | Of all steps but a connect session's, only recording a kind changes that kind's throttle state; renames, catalogs and the other kind's records do not |
| ProbeThrottle.RowStepsAreUpdates | packages/platform-k8s/internal/providerservice/providers/mutation_runtime.go:23-68 | The steps that change the row are the repository's atomic updates with the callbacks of the mutations, which undisturbed split updates equal |
| ProbeThrottle.ReconnectForgetsThrottle | packages/platform-k8s/internal/providerconnect/oauth_finalize_execution.go:41-82 | A finalised connect session replaces the row without probe status: there is a run in which a scheduled probe then follows a recorded attempt within its interval |
| ProbeThrottle.UnsupportedNeverStarts | packages/platform-k8s/internal/providerorchestration/probe_activities.go:22-84 | No run ever starts a probe of a kind the surface does not support |
| ProbeThrottle.OneRound | packages/platform-k8s/internal/providerorchestration/probe_activities.go:22-121 | A task can run undisturbed from rest to its recorded attempt: by hand or without trigger whatever was recorded before, by a schedule or a connect session when nothing was |
| ProbeThrottle.PreflightExactly | packages/platform-k8s/internal/providerorchestration/probe_activities.go:22-84 | The preflight of a supported kind ends a task if and only if a schedule or a connect session began it and the state it read still forbids it, and else allows it exactly when, for quota, its credential is ready |
| ProbeDecision.StampThrottlesExactly | packages/platform-k8s/internal/providerorchestration/probe_activities.go:185-215 | The stamp of any task on a supported surface throttles schedule and connect tasks exactly until the configured interval, or 300 s without one, is over; manual tasks and tasks without trigger are ready at once |
| ProbeTask.Run | packages/platform-k8s/internal/providerorchestration/probe_activities.go:86-215 | One task as code: throttled exactly if a schedule or connect session began it and the stored state forbids it, executed exactly if supported, not throttled and ready; every task not throttled records, in its own kind only, its time, the interval's end, its id and the texts of its outcome |
| ProbeTask.Conclude | packages/platform-k8s/internal/providerorchestration/probe_activities.go:86-183 | Each outcome has its texts: unsupported, the credential's refusal, a failed probe, or the probe's own outcome and message with a default when it is blank |
| SessionProtocol.OnlyTheTargetRow | packages/platform-k8s/internal/providerconnect/oauth_finalize_execution.go:41-82 | No step of any session read, under any faults, touches a provider row other than the snapshot's target; the only step that writes stores the plan's provider there |
| SessionProtocol.RowIsThePlans | packages/platform-k8s/internal/providerconnect/oauth_finalize_execution.go:41-82 | In every interleaving of concurrent reads, while OAuth answers name one credential and nobody else writes the row, the target row is what it was at the start or exactly the plan's provider, and is the plan's for every caller whose upsert is done |
| SessionProtocol.CommittedRowStays | packages/platform-k8s/internal/providerconnect/oauth_finalize_execution.go:41-82 | Under the same conditions the target row is the plan's provider at every state after the first committed creation, also when the creating caller has moved on |
| SessionProtocol.ConnectedIsTheSurface | packages/platform-k8s/internal/providerconnect/session_sync_runtime.go:27-63 | In every interleaving the stored connected surface, and every caller's copy, is empty or the session's provider surface |
| SessionProtocol.SequentialRun | packages/platform-k8s/internal/providerconnect/session_query_runtime.go:26-45 | With one caller a committed connected surface never changes or clears |
| SessionProtocol.ConnectedOnceAndForAll | packages/platform-k8s/internal/providerconnect/session_sync_runtime.go:37-63 | Once connected, a sequential run stays connected to the session's surface at every later state and never creates a provider again |
| SessionProtocol.StaleSaveClears | packages/platform-k8s/internal/providerconnect/session_query_runtime.go:26-45 | Concurrent reads lose that guarantee: there is a run of two reads of a new record that is connected after six steps and cleared by the eighth, a stale save |
| SessionProtocol.SaveKeepsConnectionExactly | packages/platform-k8s/internal/providerconnect/session_query_runtime.go:26-45 | A save keeps a committed connection if and only if its caller's copy has one |
| SessionProtocol.CallerKeepsConnection | packages/platform-k8s/internal/providerconnect/session_sync_runtime.go:27-63 | A caller that loaded a connection still has it, unchanged, at every later step until its save |
| SessionProtocol.FinalizeKeepsThrottleExactly | packages/platform-k8s/internal/providerconnect/oauth_finalize_execution.go:41-66 | Finalising over an existing row keeps a kind's throttle state if and only if there was none |
| SessionProtocol.ReadErrorKeepsTerminal | packages/platform-k8s/internal/providerconnect/session_progress.go:18-34 | A load, a failed OAuth read and a save leave a terminal record and everything else exactly as before |
| SessionProtocol.ConnectsAlone | packages/platform-k8s/internal/providerconnect/session_sync_runtime.go:27-73 | A caller alone with a usable OAuth answer connects the session in four steps |
| SessionProtocol.CreateWrites | packages/platform-k8s/internal/providerconnect/oauth_finalize_execution.go:41-66 | An accepted creation either commits the plan's row or fails the caller and leaves the rows alone |
| SessionProtocol.AdvanceConnection | packages/platform-k8s/internal/providerconnect/session_sync_runtime.go:27-63 | The OAuth answer alone never changes the connection, and finalising starts only without one |
| ConnectSession.GuardFindsCredential | packages/platform-k8s/internal/providerconnect/oauth_finalize_plan.go:16-41 | Whenever the materialisation guard lets a session finalise, the plan finds a credential id that is not blank |
| SessionRuntime.SessionRecord.constructor | packages/platform-k8s/internal/providerconnect/session_target_snapshot.go:19-31 | A new record keeps the trimmed target for good and starts unconnected with the phase of its OAuth status |
| SessionRuntime.SessionRecord.ApplyOAuthStatus | packages/platform-k8s/internal/providerconnect/session_progress.go:36-48 | Applying an OAuth status sets phase, messages, url and code and keeps the connected surface |
| SessionRuntime.SessionRecord.MarkConnected | packages/platform-k8s/internal/providerconnect/session_progress.go:65-70 | Marking connected sets the trimmed surface and the succeeded phase and clears the error |
| SessionRuntime.PlanFields | packages/platform-k8s/internal/providerconnect/oauth_finalize_plan.go:16-41 | The plan's provider and surface ids are trimmed, so writing the plan keeps it unchanged |
| SessionRuntime.Finalize | packages/platform-k8s/internal/providerconnect/oauth_finalize_execution.go:41-82 | The finaliser under any faults, exactly: without a credential it fails; a duplicate surface is taken over only from a row with the session's surface, target and credential, and always when all rows on it are such; else the row with the trimmed target, name, surface and credential is written if and only if it is not refused, has an id and is valid, and it succeeds if and only if it was written and read back |
| SessionRuntime.PlanCarries | packages/platform-k8s/internal/providerconnect/oauth_finalize_plan.go:16-41 | The committed row carries the imported credential when there is one, else the targeted one, with the session's own target, name and surface, no models and no probe status |
| SessionRuntime.ProtocolFinalizes | packages/platform-k8s/internal/providerconnect/oauth_finalize_execution.go:41-82 | Undisturbed, the protocol's steps of a finalise, whatever the answers, do to rows and caller what the finaliser does |
| SessionRuntime.SyncedFollowsAdvance | packages/platform-k8s/internal/providerconnect/session_sync_runtime.go:27-63 | The runtime's progress is the protocol's step, completed by the finaliser's answer |
| SessionRuntime.SyncedTells | packages/platform-k8s/internal/providerconnect/session_sync_runtime.go:27-63 | After a failed finalise the phase is Failed with the finaliser's error, after a successful one Succeeded without error and connected; an OAuth read error fails a record that is not terminal; otherwise phase, url, code, message and error are those of the OAuth answer, phase by phase |
| SessionRuntime.SyncedConnection | packages/platform-k8s/internal/providerconnect/session_sync_runtime.go:27-63 | A sync leaves the connected surface alone or sets it to the session's own, finalises nothing once connected, and keeps a terminal record on a read error |
| SessionRuntime.Sync | packages/platform-k8s/internal/providerconnect/session_sync_runtime.go:27-63 | The sync code tells exactly that, finalises exactly when a successful OAuth answer names a credential and the record lacks its connection, with that outcome and those rows, and else writes no row |
| SessionRuntime.SessionStore.Create | packages/platform-k8s/internal/providerconnect/session_store.go:46-76 | Create stores the record exactly when its id is not blank and new |
| SessionRuntime.SessionStore.Put | packages/platform-k8s/internal/providerconnect/session_store.go:102-125 | Put replaces one stored payload whole, exactly if it exists and fewer than five conflicts occur |
| SessionRuntime.GetSession | packages/platform-k8s/internal/providerconnect/session_query_runtime.go:26-45 | One read end to end: it succeeds exactly for a stored id with fewer than five conflicts, and then saves what the OAuth answer and a finalise with the rows it found make of the record; other sessions and other rows stay as they are, a stored connection is kept without touching the provider table, and a read error on a terminal record changes nothing |
| BaseUrlTemplate.AcceptsExactlyInstances | packages/platform-k8s/internal/providerconnect/surface_api_key_base_url.go:12-87 | For every template with tokens, an override without whitespace is accepted, unchanged, if and only if the tokens are distinct and it is the template with each token replaced by a value that is not blank and free of / ? # { } |
| BaseUrlTemplate.AcceptedIsInstance | packages/platform-k8s/internal/providerconnect/surface_api_key_base_url.go:12-45 | Every accepted override, whitespace or not, is returned as given up to trimming and is such an instance |
| BaseUrlTemplate.RepeatedTokenAcceptsNothing | packages/platform-k8s/internal/providerconnect/surface_api_key_base_url.go:12-45 | A template that repeats a token rejects every override |
| BaseUrlTemplate.SegmentsConcatenate | packages/platform-k8s/internal/providerconnect/surface_api_key_base_url.go:71-87 | The template's literals and tokens, in order, concatenate back to the template |
| BaseUrlTemplate.TokensExactly | packages/platform-k8s/internal/providerconnect/surface_api_key_base_url.go:10-11 | The tokens of a template are exactly its non-empty runs of ASCII letters, digits and underscores in braces |
| BaseUrlTemplate.LiteralsStandBetween | packages/platform-k8s/internal/providerconnect/surface_api_key_base_url.go:71-87 | Each literal is the text between two neighbouring tokens, or an end and a token |
| BaseUrlTemplate.ValueExactly | packages/platform-k8s/internal/providerconnect/surface_api_key_base_url.go:38-43 | A value is a text with a character that is not whitespace and none of / ? # { } |
| BaseUrlTemplate.MatchIsFill | packages/platform-k8s/internal/providerconnect/surface_api_key_base_url.go:71-87 | A match's groups fill the literals back to the matched text and are non-empty and free of / ? # |
| BaseUrlTemplate.FillMatches | packages/platform-k8s/internal/providerconnect/surface_api_key_base_url.go:71-87 | Every filling of the literals by such groups is matched: backtracking loses none |
| BaseUrlTemplate.MatchIsGreedy | packages/platform-k8s/internal/providerconnect/surface_api_key_base_url.go:71-87 | Among all fillings that give the text, the match is the one with the longest first group where they differ, as a greedy pattern chooses |
| BaseUrlTemplate.TemplateFields | packages/platform-k8s/internal/providerconnect/surface_api_key_base_url.go:47-69 | The field loop returns each token name once, in order of first appearance |
| BaseUrlTemplate.DistinctLength | packages/platform-k8s/internal/providerconnect/surface_api_key_base_url.go:47-69 | The field list has the members of the token list, and its length exactly when no token repeats |
| BaseUrlTemplate.ValuePattern | packages/platform-k8s/internal/providerconnect/surface_api_key_base_url.go:71-87 | The pattern loop cuts the template into the literals around its tokens |
| BaseUrlTemplate.ResolveBaseUrl | packages/platform-k8s/internal/providerconnect/surface_api_key_base_url.go:12-45 | The resolver code, field loop included: an empty template, an override of a template without tokens, and a missing override are refused, each in its own way; an override is no match exactly if a token repeats or it does not fill the template; and the first field that is blank or has a brace is named |
| Slugs.NormalizedVendorSlug | packages/platform-k8s/internal/modelservice/modelidentity/identity.go:12-26 | The replace loop terminates with the one-pass collapse of hyphen runs; no double, leading or trailing hyphen is left |
| Slugs.NormalizeExternalModelSlug | packages/platform-k8s/internal/modelservice/modelidentity/identity.go:48-68 | The same for model slugs, with the qwen spelling applied last |
| Slugs.VendorSlugJoinsWords | packages/platform-k8s/internal/modelservice/modelidentity/identity.go:12-26 | A vendor slug is the words of the trimmed lower-case text between hyphens, underscores, spaces, dots and slashes, joined by single hyphens |
| Slugs.ModelSlugJoinsWords | packages/platform-k8s/internal/modelservice/modelidentity/identity.go:48-68 | A model slug is the words between hyphens, underscores, spaces and slashes, joined by single hyphens, and then a leading qwen-3- or qwen-3. loses its first hyphen |
| Slugs.ReplaceDoubleCollapses | packages/platform-k8s/internal/modelservice/modelidentity/identity.go:22-24 | Replacing double hyphens does not change the collapse, whatever the run lengths |
| Slugs.ReplaceDoubleShrinks | packages/platform-k8s/internal/modelservice/modelidentity/identity.go:22-24 | Each turn of the loop shortens the slug |
| Slugs.VendorSlugIdempotentExactly | packages/platform-k8s/internal/modelservice/modelidentity/identity.go:12-26 | Normalising a vendor twice is normalising once if and only if the lower-cased and trimmed input, after hyphens and separators at its ends, has no whitespace at an end |
| Slugs.ModelSlugIdempotentExactly | packages/platform-k8s/internal/modelservice/modelidentity/identity.go:48-68 | The same condition on the input, exactly, for model slugs |
| Slugs.CollapseTrims | packages/platform-k8s/internal/modelservice/modelidentity/identity.go:57-60 | Collapsing hyphen runs and trimming hyphens at the ends give the same slug in either order |
| Slugs.SlugsIdempotentOnSpaces | packages/platform-k8s/internal/modelservice/modelidentity/identity.go:12-68 | When the space is the only whitespace both normalisers are idempotent and leave no whitespace |
| Slugs.SlugNotIdempotentOnTabs | packages/platform-k8s/internal/modelservice/modelidentity/identity.go:12-68 | A tab after a leading hyphen makes both fail to be idempotent |
| Slugs.QwenKeepsShape | packages/platform-k8s/internal/modelservice/modelidentity/identity.go:60-67 | The qwen rewrite keeps the slug's shape and is idempotent |
| ModelSuffix.PreciseCutJoins | packages/platform-k8s/internal/modelservice/modelidentity/identity.go:143-163 | A precise-date cut of a whitespace-free id joins back to it, with a non-empty base and a valid date |
| ModelSuffix.CalendarCutJoins | packages/platform-k8s/internal/modelservice/modelidentity/identity.go:171-185 | A calendar cut joins back to the id, with a non-empty base and a valid month and year |
| ModelSuffix.ReleaseCutJoins | packages/platform-k8s/internal/modelservice/modelidentity/identity.go:193-207 | A release cut joins back to the id, with a non-empty base and four digits |
| ModelSuffix.JoinedDateIsCut | packages/platform-k8s/internal/modelservice/modelidentity/identity.go:143-163 | Every non-empty base joined with a valid date, dashed or plain, is cut back into exactly the two |
| ModelSuffix.JoinedCalendarIsCut | packages/platform-k8s/internal/modelservice/modelidentity/identity.go:171-185 | Every non-empty base joined with a valid month-year or year-month is cut back exactly |
| ModelSuffix.JoinedReleaseIsCut | packages/platform-k8s/internal/modelservice/modelidentity/identity.go:193-207 | Every non-empty base joined with four digits is cut back exactly |
| ModelSuffix.PreciseDateIsNotARelease | packages/platform-k8s/internal/modelservice/modelidentity/identity.go:143-207 | An id with a precise date is neither a calendar nor a four-digit release, for any input |
| ModelSuffix.DateReads | packages/platform-k8s/internal/modelservice/modelidentity/identity.go:284-309 | Precise dates are four, two and two digits, with hyphens or without, whose month is 1 to 12 and whose day is 1 to 31 |
| ModelSuffix.CalendarReads | packages/platform-k8s/internal/modelservice/modelidentity/identity.go:252-282 | Calendar releases are a four-digit year and a two-digit month from 1 to 12, in either order, with a hyphen between |
| ModelSuffix.ReleaseReads | packages/platform-k8s/internal/modelservice/modelidentity/identity.go:240-250 | Releases are four decimal digits |
| ModelSuffix.DateCutExactly | packages/platform-k8s/internal/modelservice/modelidentity/identity.go:143-163 | A precise date is cut, for any input, exactly where the trimmed text is something, a hyphen and such a date, and the base is what is in front, trimmed |
| ModelSuffix.CalendarCutExactly | packages/platform-k8s/internal/modelservice/modelidentity/identity.go:171-185 | The same for calendar releases |
| ModelSuffix.ReleaseCutExactly | packages/platform-k8s/internal/modelservice/modelidentity/identity.go:193-207 | The same for four digits |
| ModelIdentity.CandidatesShape | packages/platform-k8s/internal/modelservice/modelidentity/identity.go:210-237 | For any id the trimmed id is the last candidate and the others are distinct, non-empty and strictly shorter; a blank id has none |
| ModelIdentity.CandidatesExactly | packages/platform-k8s/internal/modelservice/modelidentity/identity.go:210-237 | For any input the candidates are the trimmed text, the base in front of each suffix, and for releases that base without -instruct, and nothing else |
| ModelIdentity.CandidatesAreBoundaries | packages/platform-k8s/internal/modelservice/modelidentity/identity.go:210-237 | Every candidate of a whitespace-free id is the id or a prefix of it that ends at a hyphen |
| ModelIdentity.CandidatesGainNoChannel | packages/platform-k8s/internal/modelservice/modelidentity/identity.go:72-80 | No such candidate has a channel token that the id lacks |
| ModelIdentity.ShortestExactly | packages/platform-k8s/internal/modelservice/modelidentity/identity.go:28-45 | The canonical id of a whitespace-free slug is a shortest candidate, as the comment promises, if and only if the slug is not a name, -instruct- and a calendar or four-digit release |
| ModelIdentity.InstructHidesFamily | packages/platform-k8s/internal/modelservice/modelidentity/identity.go:210-237 | Every name with -instruct- and four digits has the name itself as a later, shorter candidate than its first |
| ModelIdentity.FieldsSplit | packages/platform-k8s/internal/modelservice/modelidentity/identity.go:72-110 | Tokens on the two sides of a separator do not interact |
| ModelIdentity.FieldsExactly | packages/platform-k8s/internal/modelservice/modelidentity/identity.go:72-110 | The tokens of a text are exactly its non-empty stretches without separators between separators or ends |
| ModelIdentity.ChannelExactly | packages/platform-k8s/internal/modelservice/modelidentity/identity.go:72-80 | An id names a channel if and only if preview, latest or experimental stands so in its trimmed lower-case text |
| ModelIdentity.NormalizeExternalModelIdentity | packages/platform-k8s/internal/modelservice/modelidentity/identity.go:32-45 | The identity loop gives nothing for an empty slug or one that names a channel, and else the base in front of a precise date, or of a calendar release, or of four digits, or the slug itself, with the trimmed slug as one snapshot alias unless that is the id |
| ModelIdentity.SameCanonicalIdExactly | packages/platform-k8s/internal/providerservice/providercatalogs/materializer.go:240-258 | The catalog's reference and the model service's identity choose the same canonical id if and only if the slug is empty or not made of whitespace alone |
| ModelIdentity.ChoicesDifferOnTab | packages/platform-k8s/internal/providerservice/providercatalogs/materializer.go:240-258 | On an input that leaves a tab as its slug the two choices differ |
| ModelIdentity.RewrittenIdentityIsSnapshot | packages/platform-k8s/internal/modelservice/modelidentity/identity.go:113-128 | For every input, an identity other than its slug carries the trimmed slug as exactly one snapshot alias, and otherwise no alias |
| SessionCookie.CookieRoundTrip | packages/platform-k8s/internal/sessioncookie/session_cookie.go:25-73 | For every string, parsing what was printed from its parse gives that parse, whatever order the map is visited in |
| SessionCookie.ParseOfHeader | packages/platform-k8s/internal/sessioncookie/session_cookie.go:25-53 | Every clean cookie map is read back exactly from its header |
| SessionCookie.ParseClean | packages/platform-k8s/internal/sessioncookie/session_cookie.go:25-73 | Parsing leaves only trimmed, non-empty keys without = or ; and trimmed, non-empty values without ; |
| SessionCookie.HeaderIgnoresOrder | packages/platform-k8s/internal/sessioncookie/session_cookie.go:33-53 | Equal maps print the same header, in strictly increasing key order, for any two iteration orders |
| SessionCookie.HeaderLeast | packages/platform-k8s/internal/sessioncookie/session_cookie.go:33-53 | The header starts with the cookie of the least key, written key=value, and goes on with the header of the others after a semicolon and a space |
| SessionCookie.MergeIsLastWriter | packages/platform-k8s/internal/sessioncookie/session_cookie.go:9-15 | After a merge each cookie has the value of the last Set-Cookie line naming it, is absent if that value is empty, and else keeps its request value |
| SessionCookie.MergeByLines | packages/platform-k8s/internal/sessioncookie/session_cookie.go:9-15 | A merged header holds a cookie with a value if and only if the value is not empty and the last response line naming it gives that value, or no line names it and the last request pair does |
| SessionCookie.SetCookieLine | packages/platform-k8s/internal/sessioncookie/session_cookie.go:75-84 | A line of the header name in any case, a clean pair, and attributes or none sets exactly that cookie to that value; so does one without the header name, unless its key begins like it |
| SessionCookie.ParseReads | packages/platform-k8s/internal/sessioncookie/session_cookie.go:25-31 | A header holds a cookie with a value if and only if the value is not empty and the last pair that names the cookie gives it |
| SessionCookie.NamedReads | packages/platform-k8s/internal/sessioncookie/session_cookie.go:55-73 | A pair names the trimmed text before its first = and gives it the trimmed text after it, whatever blanks surround the pair |
| SessionCookie.MergeTwice | packages/platform-k8s/internal/sessioncookie/session_cookie.go:9-15 | Merging the same response again prints the same header |
| SessionCookie.LastWriterWins | packages/platform-k8s/internal/sessioncookie/session_cookie.go:55-73 | Applying pairs in order is a last-writer override with deletion |
| SessionCookie.Merge | packages/platform-k8s/internal/sessioncookie/session_cookie.go:9-15 | The merge loop prints the request's cookies overridden by the response's lines, for every cookie and value as MergeByLines says |
| SessionCookie.Jar.ApplyPair | packages/platform-k8s/internal/sessioncookie/session_cookie.go:55-73 | A pair that names a cookie sets it, or deletes it when the value is empty; any other pair changes nothing |
| SessionCookie.Jar.Header | packages/platform-k8s/internal/sessioncookie/session_cookie.go:33-53 | The printing loop gives the header of some iteration order of the jar |
| CatalogMaterializer.MaterializeIdempotent | packages/platform-k8s/internal/providerservice/providercatalogs/materializer.go:81-100 | Materialising again with the same probe answer changes nothing |
| CatalogMaterializer.ChangesOnlyModels | packages/platform-k8s/internal/providerservice/providercatalogs/materializer.go:81-100 | Materialisation changes nothing but the models |
| CatalogMaterializer.SurvivorKeepsRef | packages/platform-k8s/internal/providerservice/providercatalogs/materializer.go:218-238 | A model whose id survives keeps its reference unless a later entry gives the same id another |
| CatalogMaterializer.FastPathAgreesExactly | packages/platform-k8s/internal/providerservice/providercatalogs/materializer.go:260-270 | When the already-current path is taken it agrees with a full rebuild if and only if every stored id is trimmed and not empty and every entry carries its id's reference |
| CatalogMaterializer.FastPathAgreesOnDistinct | packages/platform-k8s/internal/providerservice/providercatalogs/materializer.go:260-282 | In particular it agrees whenever stored ids are trimmed, not empty and distinct |
| CatalogMaterializer.BuiltModels | packages/platform-k8s/internal/providerservice/providercatalogs/materializer.go:218-238 | A rebuild holds exactly the non-blank ids, trimmed, each with its known reference |
| CatalogMaterializer.BuiltInOrder | packages/platform-k8s/internal/providerservice/providercatalogs/materializer.go:218-238 | A rebuild has one model for each id that is not blank, trimmed, in the order of the ids |
| CatalogMaterializer.AcceptedExactly | packages/platform-k8s/internal/providerservice/providercatalogs/materializer.go:193-216 | The kept ids stand at the increasing positions of exactly the accepted ids |
| CatalogMaterializer.MaterializedOffers | packages/platform-k8s/internal/providerservice/providercatalogs/materializer.go:70-100 | Whether rebuilt or found current, a catalog offers a non-empty id if and only if some probed id trims to it and the filter, if there is one, accepts it |
| CatalogMaterializer.VendorGuesses | packages/platform-k8s/internal/providerservice/providercatalogs/materializer.go:240-258 | With a vendor, an id that is new to the catalog refers to the canonical id of its identity under that vendor, when it has one |
| CatalogMaterializer.FilteredModelIds | packages/platform-k8s/internal/providerservice/providercatalogs/materializer.go:193-216 | The filter loop keeps, trimmed, in probe order and as often as they were probed, exactly the ids that are not blank and that the filter accepts for the surface; without a filter it keeps all ids as they are |
| CatalogMaterializer.ModelsFromModelIds | packages/platform-k8s/internal/providerservice/providercatalogs/materializer.go:218-238 | The rebuild loop builds from the references that were stored |
| CatalogMaterializer.ModelsAlreadyCurrent | packages/platform-k8s/internal/providerservice/providercatalogs/materializer.go:260-270 | The comparison loop answers whether the trimmed ids agree position by position |
| CatalogMaterializer.MaterializeProvider | packages/platform-k8s/internal/providerservice/providercatalogs/materializer.go:70-100 | The materialiser code fails exactly when discovery does, leaves the provider alone when there is nothing to probe, and else offers exactly the non-empty ids that some probed id trims to and that the filter accepts |
| MaterializationSyncer.NormalizeProviderIds | packages/platform-k8s/internal/providerservice/providercatalogs/materialization_syncer.go:86-101 | The id list is the trimmed non-blank values, each once, in the order of their first appearance |
| MaterializationSyncer.SyncProvider | packages/platform-k8s/internal/providerservice/providercatalogs/materialization_syncer.go:70-84 | One sync materialises one stored row, or fails and changes none |
| MaterializationSyncer.Sync | packages/platform-k8s/internal/providerservice/providercatalogs/materialization_syncer.go:36-50 | On success every listed row is materialised from what it was and every other row is untouched; a failure has a missing row or failed discovery behind it; only models ever change |
| MaterializationSyncer.SyncedRow | packages/platform-k8s/internal/providerservice/providercatalogs/materialization_syncer.go:70-84 | A synced row keeps both kinds' throttle state, and a second sync finds nothing to change |
| ExternalRuleSets.NormalizationIgnoresOrder | packages/platform-k8s/internal/platform/vendors/support/external_rule_sets_normalize.go:9-149 | Permuting sets, rules, inspection rules or account lists changes neither whether normalisation succeeds nor its result |
| ExternalRuleSets.NormalizationIsSound | packages/platform-k8s/internal/platform/vendors/support/external_rule_sets_normalize.go:9-149 | Success gives one normalised set per input set with strictly increasing ids, each sound in the sense of SetOk: unique rule ids, one host per rule, ports 1 to 65535, known inspection targets |
| ExternalRuleSets.SetIsOk | packages/platform-k8s/internal/platform/vendors/support/external_rule_sets_normalize.go:42-75 | A normalised set is sound and keeps the number of its rules and inspection rules |
| ExternalRuleSets.NormalizeSets | packages/platform-k8s/internal/platform/vendors/support/external_rule_sets_normalize.go:9-82 | The file loop succeeds if and only if every set is valid as written and no two trimmed ids agree; the result then has, by increasing id, exactly one normalised set for each as it was written, and otherwise the refusal is that of the first set refused, a repeated id before its other fields |
| ExternalRuleSets.NormalizeRules | packages/platform-k8s/internal/platform/vendors/support/external_rule_sets_normalize.go:42-56 | The rule loop succeeds if and only if every rule has an id, exactly one host and a port from 1 to 65535 or 0, and no two trimmed ids agree; the result has, by increasing id, exactly each rule as it was written, and otherwise the refusal is that of the first rule refused |
| ExternalRuleSets.NormalizeInspections | packages/platform-k8s/internal/platform/vendors/support/external_rule_sets_normalize.go:61-75 | The inspection loop succeeds if and only if every rule has an id and a known destination and no two trimmed ids agree; the result has, by increasing id, exactly each rule as it was written, and otherwise the refusal is that of the first rule refused |
| ExternalRuleSets.RuleReads | packages/platform-k8s/internal/platform/vendors/support/external_rule_sets_normalize.go:84-121 | A rule as it was written: its exact host becomes the exact host and its wildcard the wildcard, trimmed, without one trailing dot and lower-cased; port 0 becomes 443; blank destination and name get their defaults; the rest is trimmed |
| ExternalRuleSets.InspectionReads | packages/platform-k8s/internal/platform/vendors/support/external_rule_sets_normalize.go:123-181 | An inspection rule as it was written: matches in order with their lists, header values with trimmed names in order and without those that have none, request and response policies each as given |
| ExternalRuleSets.SetReads | packages/platform-k8s/internal/platform/vendors/support/external_rule_sets_normalize.go:9-75 | A set normalises if and only if it has an id, an owner, an account, rules that are valid together and inspection rules for their destinations, and then reads as written |
| ExternalRuleSets.StringListCanonical | packages/platform-k8s/internal/platform/vendors/support/string_lists.go:15-31 | A string list is strictly increasing, holds exactly the trimmed non-blank values, and depends only on which values occur |
| ExternalRuleSets.NormalizeStringList | packages/platform-k8s/internal/platform/vendors/support/string_lists.go:15-31 | The dedup loop with its sort computes that list |
| ExternalRuleSets.AccessSetOf | packages/platform-k8s/internal/platform/vendors/support/external_rule_sets_proto.go:9-46 | The projection loops give one external and one service rule per rule, in order, with the same destination, and one inspection rule per inspection |
| ExternalRuleSets.AccessSetIsSound | packages/platform-k8s/internal/platform/vendors/support/external_rule_sets_proto.go:9-46 | The access set of any normalised set has distinct external ids, names one host per rule, grants each to a non-empty account list, and every inspection rule targets one of its external rules |
| ExternalRuleSets.AccessSetReads | packages/platform-k8s/internal/platform/vendors/support/external_rule_sets_proto.go:9-119 | From the file to the access set: for each rule as it was written, and for nothing else, one external rule with its host of the right kind, port, protocol, resolution and proxy, granted by its service rule to the rule's own accounts or else the set's; and each inspection rule, empty policies left out |
| ExternalRuleSets.ServiceIdsDistinctExactly | packages/platform-k8s/internal/platform/vendors/support/external_rule_sets_proto.go:27-31 | Service rule ids, unlike external ones, are distinct if and only if destinations are |
| ExternalRuleSets.ServiceIdsDistinctOnInput | packages/platform-k8s/internal/platform/vendors/support/external_rule_sets_proto.go:27-31 | For every set that normalises they are distinct if and only if no two rules, as written, get the same destination |
| ExternalRuleSets.SharedDestinationRepeatsServiceId | packages/platform-k8s/internal/platform/vendors/support/external_rule_sets_proto.go:27-31 | A set with two rules for one destination normalises and has two equal service rule ids |
| KeyedCollection.CollectExactly | packages/platform-k8s/internal/platform/vendors/support/external_rule_sets_normalize.go:42-75 | Collecting under a seen map succeeds exactly if every item normalises and no key repeats, and then returns all of them in order |
| KeyedCollection.CollectFails | packages/platform-k8s/internal/platform/vendors/support/external_rule_sets_normalize.go:42-75 | Collecting fails with the refusal of the first item that is refused, or at the first item that repeats a key |
| KeyedCollection.CollectPermutes | packages/platform-k8s/internal/platform/vendors/support/external_rule_sets_normalize.go:54-56 | Sorted by its keys, a collection does not depend on the order of its input, failure included |
| AIStudioRateLimits.ParseRateLimits | packages/platform-k8s/internal/providerservice/providerobservability/vendor_observability_collector_google_aistudio_rate_limits.go:42-161 | Fails exactly on a payload without rows, or when no row gives a limit in the chosen tier; otherwise reports, by increasing id, each model with such a row, each limit as often as rows give it by their columns, in order, under the category of the first |
| AIStudioRateLimits.LimitsAreConserved | packages/platform-k8s/internal/providerservice/providerobservability/vendor_observability_collector_google_aistudio_rate_limits.go:101-155 | The reported limits are, as a multiset with their models, exactly the positive supported entries of the tier |
| AIStudioRateLimits.SelectTier | packages/platform-k8s/internal/providerservice/providerobservability/vendor_observability_collector_google_aistudio_rate_limits.go:163-178 | The chosen tier is the positive hint, else the most frequent code and the smallest on ties, for every map iteration order; none only without hint and counts |
| AIStudioRateLimits.SelectsOne | packages/platform-k8s/internal/providerservice/providerobservability/vendor_observability_collector_google_aistudio_rate_limits.go:163-178 | At most one tier meets that description, so the choice does not depend on the order |
| AIStudioRateLimits.MostFrequentUnique | packages/platform-k8s/internal/providerservice/providerobservability/vendor_observability_collector_google_aistudio_rate_limits.go:169-176 | The most frequent code with the smallest on ties is unique |
| AIStudioRateLimits.ReadRows | packages/platform-k8s/internal/providerservice/providerobservability/vendor_observability_collector_google_aistudio_rate_limits.go:51-96 | The row loop collects the entries and counts every supported row's tier, positive or not |
| AIStudioRateLimits.RowReads | packages/platform-k8s/internal/providerservice/providerobservability/vendor_observability_collector_google_aistudio_rate_limits.go:51-96 | A row gives an entry if and only if column 0 names a known model, columns 1, 2 and 3 hold tier, resource and window, column 4 starts with a positive number, and the category of column 5 or of the model is supported |
| AIStudioRateLimits.VotesCount | packages/platform-k8s/internal/providerservice/providerobservability/vendor_observability_collector_google_aistudio_rate_limits.go:51-84 | A tier has one vote for each row that its columns 0 to 3 and 5 make a supported row of it, with or without a limit |
| AIStudioRateLimits.EntriesGiven | packages/platform-k8s/internal/providerservice/providerobservability/vendor_observability_collector_google_aistudio_rate_limits.go:51-96 | The entries are those given by rows, in row order, and no row that gives one is missing |
| AIStudioRateLimits.LimitIs | packages/platform-k8s/internal/providerservice/providerobservability/vendor_observability_collector_google_aistudio_rate_limits_metrics.go:58-98 | An entry's limit by the code tables: 1 and 9 requests, 2 and 8 tokens, 5 images, 6 videos, else other; 1 minute, 2 day, else the code in decimal digits |
| AIStudioRateLimits.GivenCount | packages/platform-k8s/internal/providerservice/providerobservability/vendor_observability_collector_google_aistudio_rate_limits.go:101-126 | A limit stands under its model exactly as often as rows of the tier give it |
| AIStudioRateLimits.EntriesAreSupported | packages/platform-k8s/internal/providerservice/providerobservability/vendor_observability_collector_google_aistudio_rate_limits.go:58-95 | Every entry has a positive value, a known model, a supported category and a tier that was counted |
| AIStudioRateLimits.GroupEntries | packages/platform-k8s/internal/providerservice/providerobservability/vendor_observability_collector_google_aistudio_rate_limits.go:101-126 | The grouping loop puts exactly the tier's entries under their models, with the category of a model's first entry |
| AIStudioRateLimits.FinishLimits | packages/platform-k8s/internal/providerservice/providerobservability/vendor_observability_collector_google_aistudio_rate_limits.go:138-154 | Filtering drops nothing, since no quota type is empty, and sorting rearranges the limits by quota type and window |
| AIStudioRateLimits.FinishModels | packages/platform-k8s/internal/providerservice/providerobservability/vendor_observability_collector_google_aistudio_rate_limits.go:130-156 | The models come out once each in increasing order, whatever order the map is visited in |
| AIStudioUsage.ReportedLimitsStayBounded | packages/platform-k8s/internal/providerservice/providerobservability/vendor_observability_collector_google_aistudio_metric_time_series.go:168-189 | Applying usage that is not negative to any parsed result keeps 0 <= remaining <= limit everywhere |
| AIStudioUsage.BoundedExactly | packages/platform-k8s/internal/providerservice/providerobservability/vendor_observability_collector_google_aistudio_metric_time_series.go:176-185 | For a fetched limit that holds exactly when its usage is not negative |
| AIStudioUsage.ApplyUsage | packages/platform-k8s/internal/providerservice/providerobservability/vendor_observability_collector_google_aistudio_metric_time_series.go:168-189 | The in-place loops change only what remains of fetched limits: used and remaining add up to the limit while it is not used up and nothing remains from there on, where used is what is stored under the trimmed model, resource and window; without usage the whole limit remains |
| AIStudioUsage.UsageOnlySetsRemaining | packages/platform-k8s/internal/providerservice/providerobservability/vendor_observability_collector_google_aistudio_metric_time_series.go:168-189 | Usage keeps every other field and the order of the limits, and applying it twice is applying it once |
| AIStudioUsage.ParseUsage | packages/platform-k8s/internal/providerservice/providerobservability/vendor_observability_collector_google_aistudio_metric_time_series.go:191-221 | Each target model's usage is the greatest number of any point in column 0 of a row with its trimmed id in column 1, and a model without points has none |
| AIStudioUsage.MaxValue | packages/platform-k8s/internal/providerservice/providerobservability/vendor_observability_collector_google_aistudio_metric_time_series.go:223-236 | The maximum is one of the collected points and at least each of them; none exactly without points |
| AIStudioUsage.CollectValues | packages/platform-k8s/internal/providerservice/providerobservability/vendor_observability_collector_google_aistudio_metric_time_series.go:238-250 | The recursive collector appends the points of the tree from left to right to what it was given |
| AIStudioUsage.PointsExactly | packages/platform-k8s/internal/providerservice/providerobservability/vendor_observability_collector_google_aistudio_metric_time_series.go:238-269 | What is collected from a tree are the numbers of its points: a list of a timestamp and a list that starts with a number, found below lists that are no points themselves |
| Text.TrimExactly | packages/platform-k8s/internal/platform/vendors/support/external_rule_sets_normalize.go:14-17 | Trimming drops the whitespace at both ends and nothing else: the result is the only trimmed text between two runs of whitespace that make up the input |
| Text.LessReads | packages/platform-k8s/internal/platform/vendors/support/external_rule_sets_normalize.go:54-56 | A string sorts before another if it is a proper prefix or has the smaller character where they first differ |
| Text.SplitExactly | packages/platform-k8s/internal/sessioncookie/session_cookie.go:25-31 | Splitting on a character gives pieces without it that make up the text again when joined by it |
| MistralBilling.CostRows | packages/platform-k8s/internal/providerservice/providerobservability/vendor_observability_collector_mistral_parse.go:93-162 | The total row equals both the sum of all model rows and the cost of every entry of every category with a non-blank model id, for any map iteration order; there are no rows exactly when the report has no part, no currency and no price |
| MistralBilling.CategoryRows | packages/platform-k8s/internal/providerservice/providerobservability/vendor_observability_collector_mistral_parse.go:108-121 | One category's rows sum to the cost of its named models' entries, each row bills one metric of one model, and every metric that costs something is billed |
| MistralBilling.ModelCostRows | packages/platform-k8s/internal/providerservice/providerobservability/vendor_observability_collector_mistral_parse.go:333-379 | One row per billing metric that costs something, holding the metric's whole cost, the model's display id and the label of its last costing entry; the rows sum to the cost of all entries, and nothing is lost in grouping |
| MistralBilling.UsageCosts | packages/platform-k8s/internal/providerservice/providerobservability/vendor_observability_collector_mistral_parse.go:341-358 | A model costs what its input, output and cached entries cost together, and each metric what its own entries cost |
| MistralBilling.NamedModelCosts | packages/platform-k8s/internal/providerservice/providerobservability/vendor_observability_collector_mistral_parse.go:108-121 | A model with a name costs what its three lists of entries cost together, and one with a blank name nothing |
| MistralBilling.DisplayIs | packages/platform-k8s/internal/providerservice/providerobservability/vendor_observability_collector_mistral_parse.go:441-447 | A model is displayed as the trimmed text before its first double colon when that is not blank, else as its trimmed id |
| MistralBilling.BilledInAll | packages/platform-k8s/internal/providerservice/providerobservability/vendor_observability_collector_mistral_parse.go:123-149 | The whole cost is that of completion, OCR, connectors, audio, library pages and tokens, training and storage, each once and only if present |
| MistralBilling.CategoryReads | packages/platform-k8s/internal/providerservice/providerobservability/vendor_observability_collector_mistral_parse.go:123-149 | Each category is named after the part of the report that its models stand in |
| MistralBilling.GroupsConserveCost | packages/platform-k8s/internal/providerservice/providerobservability/vendor_observability_collector_mistral_parse.go:341-358 | Grouping by billing metric conserves cost: each group holds its metric's cost, groups are exactly the metrics with a cost, and they sum to the whole |
| MistralBilling.EntryCostIsQuoted | packages/platform-k8s/internal/providerservice/providerobservability/vendor_observability_collector_mistral_parse.go:381-396 | An entry is charged its billable value times the last valid price quoted under its key |
| MistralBilling.EntryCostExactly | packages/platform-k8s/internal/providerservice/providerobservability/vendor_observability_collector_mistral_parse.go:381-416 | An entry with metric and group costs its positive paid value, else its positive value, times the last valid price with its key; every other entry costs nothing |
| MistralBilling.ChargedIsQuoted | packages/platform-k8s/internal/providerservice/providerobservability/vendor_observability_collector_mistral_parse.go:381-396 | Nothing is charged without such a price |
| MistralBilling.LastQuoteWins | packages/platform-k8s/internal/providerservice/providerobservability/vendor_observability_collector_mistral_parse.go:296-312 | The price index holds, for each key, exactly the last valid positive price |
| MistralBilling.IndexPrices | packages/platform-k8s/internal/providerservice/providerobservability/vendor_observability_collector_mistral_parse.go:296-312 | The index loop computes that index |
| MistralBilling.PriceKeysAgreeExactly | packages/platform-k8s/internal/providerservice/providerobservability/vendor_observability_collector_mistral_parse.go:418-420 | Price keys agree for equal metric and group, and otherwise if and only if one metric continues the other by a colon or by the separator and the shorter one's group repeats the rest |
| MistralBilling.MetricsSeparateExactly | packages/platform-k8s/internal/providerservice/providerobservability/vendor_observability_collector_mistral_parse.go:418-420 | Two different metrics never share a key, whatever their groups, if and only if neither continues the other by a colon or by the separator |
| MistralBilling.PriceKeysCollide | packages/platform-k8s/internal/providerservice/providerobservability/vendor_observability_collector_mistral_parse.go:418-420 | Two different pairs with one key |
| MistralBilling.CapRows | packages/platform-k8s/internal/providerservice/providerobservability/vendor_observability_collector_mistral_parse.go:200-218 | Cap rows exist exactly for a positive limit without the no-limit flag and report the positive total usage, else the sum of the two partial ones; what remains lies between 0 and the limit, adds up with the usage to the limit while there is some, and is 0 exactly from the limit on |
| RealSums.SumOverTake | packages/platform-k8s/internal/providerservice/providerobservability/vendor_observability_collector_mistral_parse.go:362-377 | A sum over a map's keys may take any key first: the iteration order does not matter |

## Left out

- The Kubernetes client, Postgres, Temporal, HTTP, gRPC, JSON and protobuf decoding, metrics and
  traces: requests are atomic steps, answers and decoded payloads are parameters.
- One clock is shared by all processes; clock skew is not modelled.
- SHA-256 lease names and random resource ids are taken to be injective and fresh: leases are
  stored under their keys.
- Strings are sequences of code points; lower-casing changes ASCII letters only.
- Floating point: prices, costs, limits and usage are reals; NaN and infinities do not occur.
- The provider contract's own validation (ValidateProvider, ValidateProviderModels) is an arbitrary
  predicate; nil receivers and nil inputs are not modelled.
- Which of several surfaces a duplicate creation is compared with: the look-up may find any row on
  the session's surface.
- API errors other than conflicts, cancelled contexts and crashes of a probe call are one step that
  abandons the call.
- The Value accessor of the cookie package, token rows and reset timestamps of billing reports,
  currency labels, and the per-model token limits: they would only add easy members.
- The custom surface fields of providers, endpoint keys and transport views.
- The OAuth poll loop, error classification, probe sweeps and the fetch operations behind a probe:
  their answers are arbitrary.
- Vendor collectors other than AI Studio and Mistral.
- The syncer's fallback from an empty id list to all stored providers.
- ProbeThrottle.ScheduledProbesAreSpaced: row updates are undisturbed, hence atomic by
  UndisturbedUpdateIsAtomic, and no connect session replaces the row; without the second it is
  false, by ReconnectForgetsThrottle.
- ProbeLeaseClient.Acquire: against a cluster that others change it promises the lease's holder,
  renewal and version range, not which of the retries succeeds.
- SessionCookie.MergeTwice: is about the printed header; header names in responses are lower-cased
  in ASCII only.
