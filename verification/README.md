# A verified model of the LLM supervisor proxy's routing and caching core

The proxy keeps conversations on one upstream while it balances load, survives a database outage on
cached configuration, and folds upstream streams into one response. This project models the parts of
it where state, interleaving or text make correctness hard, and proves what callers rely on.

* **Sticky load balancing** (`pkg/grouplb`, `pkg/credentiallb`). Each lock section of the engines is
  one atomic function of the state; whole calls are program counters over those sections; any number
  of calls, configuration changes, failovers and janitor passes interleave. Time is an integer that a
  caller captures before it locks and need not grow from call to call. A random draw is a free input:
  for every total weight, a point of `[0, total)`. The objects with their fields, loops and fast paths
  are classes whose methods are proved against the sections.
* **Cache decorators** (`pkg/modelscache`). The store is an oracle that finds, denies or fails. The
  model cache is a state machine over whole operations and one over the interleaved sections of its
  reads, the token cache one over interleaved lock sections; an object with a shared-element list and an index refines a recency sequence.
* **Conversation keys** (`pkg/credentiallb/key.go`). The canonical JSON printer, with the string
  escapes of section 7 of RFC 8259 as Go's encoder writes them.
* **Stream folding** (`pkg/providers/openai.go`), **loop detection**, **session ids** and **byte
  counts**.

## How the proofs are laid out

| files | what they hold |
|---|---|
| `WeightedPool`, `StickyPool`, `GroupSections` | draws, one pool with its sticky rows, the lock sections of a group and what each keeps |
| `PoolLaws`, `GroupLaws` | what lookups, failovers, sweeps and configuration changes do, told in weights, times and rows, independently of the functions that model them |
| `GroupSelection`, `GroupInterleaving`, `GroupCalls` | what a selection may answer; every interleaving of whole calls; a call alone is the whole operation |
| `GroupAffinity`, `GroupAffinityRuns` | affinity and one rebind per failure, for sections and for whole interleaved calls |
| `GroupJanitor`, `GroupJanitorSections` | janitor timing between whole operations and between the sections of calls |
| `GroupState`, `GroupWitnesses` | the group object, its loops, selectors and fast paths; runs that reach the exceptions |
| `CredentialSelector`, `CredentialEngine`, `CredentialState` | the integer-weighted twin with stats and class cooldowns |
| `CredentialLaws` | what its sections do with rows, cooldowns, stats and times; a lookup alone is the selection |
| `CredentialAffinity`, `CredentialFleet`, `CredentialWitnesses` | affinity and one move per failure over runs of sections, the map of models with removal, a run that reaches the exception |
| `SortedText`, `JsonText`, `CanonicalJson`, `JsonGrammar`, `ConversationKey` | sorting, string literals, the printer's exact meaning, the printer against the grammar, the leading run and the hashed text |
| `Recency`, `Lru`, `TokenCache`, `TokenProvenance`, `TokenLaws`, `TokenRevocation`, `TokenWitnesses`, `TokenStore` | the LRU, the token verdict cache on top of it, what each validation answers and for how long, when a revocation is final, runs that reach the exceptions, the object |
| `ModelsCache`, `ModelsSafety`, `ModelsTransparency`, `ModelsNames` | the model cache in whole operations: safety, agreement with the store, name index |
| `ModelsLaws` | what its operations do to each tier, entry by entry, when a scan is believed and a denial replayed |
| `ModelsFlights`, `ModelsFlightClaims`, `ModelsTimeliness`, `ModelsFlightRuns`, `ModelsFlightReads` | its reads and its reconciler as interleaved sections: what always holds, what becomes of claims, when the cache agrees with the store, runs that reach the exceptions |
| `ModelsConfig`, `GroupRules`, `GroupService` | the model cache object, the write rules for groups, from the rules to the engine |
| `StreamText`, `StreamFolder`, `StreamLaws`, `StreamReasoning`, `StreamProcessor` | what a stream carries, what is sent, all of it passed on once and in order, cumulative reasoning, the loop |
| `LoopDetection`, `Positional`, `SessionId`, `ByteCount`, `Options` | the exact small algorithms |

## Where a tempting claim is false

Each comes with its exact condition and an input or a run that reaches it.

* **Janitor timing is visible to exclusions.** The already-rebound shortcut of a failover does not test
  idleness, so it can hand out a row that a sweep would have removed: in the default pool
  (`GroupJanitor.SweepVisibleToExclusionIff`, reached in `GroupWitnesses.SweepChangesFailover`), in the
  backup pool (`GroupJanitor.SweepVisibleToBackupExclusionIff`, `GroupWitnesses.SweepChangesBackupFailover`)
  and in the credential engine (`CredentialEngine.SweepVisibleToFailoverIff`,
  `CredentialWitnesses.SweepChangesFailover`). Lookups that run uninterrupted never see a sweep.
* **Janitor timing is visible inside a backup lookup.** Its snapshot and its write-locked fast path ask
  whether any cooldown row is stored, dead or not (`GroupJanitorSections.SnapshotSeesSweepIff` and
  `GroupJanitorSections.FastSeesSweepIff`). `GroupJanitorSections.SectionSeesSweepIff` is the exact condition
  for every lock section of the engine.
* **A backup pick can cool.** The write-locked fast path trusts the cooldowns of its earlier snapshot
  (`GroupSelection.FastPathServesCoolingIff`, reached from the empty engine in
  `GroupWitnesses.BackupLookupServesCooling`).
* **A fill in flight beside a write leaves a stale entry.** The strict read holds no lock, so its answer can
  be installed after a write has overtaken it. The cache stays coherent with the store exactly in the steps
  that install what still holds (`ModelsTimeliness.CoherentIffTimely`), and its tiers stay disjoint exactly
  in the steps that do not note a denial beside a live row (`ModelsFlights.TiersKeptIff`).
  `ModelsFlightRuns.DenialHidesRow` is a healthy cache hiding a stored row, and
  `ModelsFlightRuns.FillUndoesUpdate` an update undone.
* **A claim can be lost while a claimant is cached.** A fill rebuilds the claim index only for a group
  row. Among whole operations only a read by name can lose a claim (`ModelsSafety.ClaimsKeptIff`;
  `ModelsSafety.UpsetLosesClaim` is a primed cache where it happens). When sections interleave, the fill of
  any read can: `ModelsFlightClaims.ClaimsKeptIff` says exactly which, and
  `ModelsFlightRuns.DirectFillLosesClaim` is a run in which a direct read does.
* **The guard against empty scans judges too early.** The reconciler compares the counts under one lock and
  swaps under a later one, so an empty scan that was believed can be applied after a model was added: the
  list is empty then although the store holds the model (`ModelsFlightRuns.BelievedScanEmptiesCache`). Of
  whole passes it does not happen (`ModelsSafety.ReconcileIsAllOrNothing`); a later apply keeps the cache
  coherent exactly when the scan lists stored rows only and all stored groups
  (`ModelsTimeliness.CoherentIffTimely`).
* **A name can yield a row of another name.** A group write evicts the claimed row but not its name, and a
  later rename of that row cannot clear the old name (`ModelsNames.NamesKeptIff`;
  `ModelsNames.OldNameLingers` is a run with a truthful store and no other writer).
* **An accepted write can make a claimed id a group.** The group rules look at the group being written
  only (`GroupRules.AcceptedWritesOrderlyIff`, reached by groups that pass the whole check in
  `GroupRules.ClaimedModelBecomesGroup`).
* **A revoked token can come back from the cache.** A validation that the store answered before the
  deletion, and a creation likewise, installs the token after it, and later validations find it. A refusal
  is final, until the store gives its word anew, exactly when no such call was under way
  (`TokenRevocation.RefusalIsFinalIff`, reached in `TokenRevocation.DeletedTokenPends`).
* **A deletion can miss a cached token.** It reaches the token exactly while the bounded reverse index
  knows its id (`TokenProvenance.DropReachesIff`, missed in `TokenWitnesses.DroppedIdFallsOut`).
* **A token past its own expiry can be served.** The stale tier tests the age of the entry alone
  (`TokenStoreObject.ExpiredTokenServedIff`, reached in `TokenWitnesses.ExpiredTokenIsServed`).
* **A hashed conversation text is ambiguous for ids with a bar.** `ConversationKey.BarAliases` and
  `ConversationKey.KeyInputInjective` are the two halves.
* **The byte-count grammar is wider than its comment says.** The comment allows no sign;
  `ByteCount.AcceptsExactly` is the language the code accepts: a plus sign anywhere a count may stand, a
  minus sign in front of zero.

## Model

| member | source | states |
|---|---|---|
| WeightedPool.NewSelector | pkg/grouplb/selector.go:26-46 | a selector exists exactly for a non-empty list of positive weights, and holds the ids and prefix sums of that list |
| WeightedPool.Pick | pkg/grouplb/selector.go:52-63 | the binary search returns the entry whose weight interval contains the draw |
| WeightedPool.DrawShare | pkg/grouplb/selector.go:52-63 | the draws that select a healthy entry are exactly one half-open interval within the range of draws whose length is its weight |
| WeightedPool.PickFacts | pkg/grouplb/binding.go:153-185 | a pick is a healthy entry of the list; there is none exactly when nobody can be picked |
| WeightedPool.PickHealthyLocked | pkg/grouplb/binding.go:153-185 | the prefix-sum hot path and the renormalised walk compute the same pick |
| WeightedPool.RenormalisedEqualsFiltered | pkg/grouplb/binding.go:161-185 | skipping cooling members picks what a selector over the filtered list would pick, for every draw |
| WeightedPool.SoonestLocked | pkg/grouplb/binding.go:194-207 | reports all-cooling exactly when every entry cools, with the first to expire, ties to the lower position |
| StickyPool.SelectKeeps | pkg/grouplb/engine.go:505-570 | a selection keeps row count mirror, named members and the absence of the empty key, and answers a member of the union |
| StickyPool.ReselectKeeps | pkg/grouplb/engine.go:790-837 | a failover keeps the same pool invariant and answers a member of the union |
| GroupSections.SideFacts | pkg/grouplb/engine.go:644-666 | each pool holds exactly the refs with its flag |
| GroupSections.ChangeKeeps | pkg/grouplb/engine.go:590-631 | a configuration change keeps the invariant: orphan rows go from both maps with both mirrors |
| GroupSections.SectionKeeps | pkg/grouplb/engine.go:429-571 | every lock section keeps the invariant and hands out current members only, the write-locked re-check without a membership test included |
| GroupSelection.SelectionIsGood | pkg/grouplb/engine.go:505-570 | what a selection may answer in all cases, without naming how it picks |
| GroupSelection.ProbeIsExact | pkg/grouplb/engine.go:315-339 | the health probe says yes precisely when a fresh default selection serves a healthy default member |
| GroupSelection.FastPathServesCoolingIff | pkg/grouplb/engine.go:936-982 | the backup fast path serves a cooling member exactly when the conversation's row names one and is neither idle nor gone |
| PoolLaws.LookupLaw | pkg/grouplb/engine.go:505-570 | a lookup answers from a row exactly while no more than ttl has passed since its last use and its member is configured and not cooling; else a drawable entry is bound from now on, else the first to come up is named with no row left, else it fails |
| PoolLaws.FailoverLaw | pkg/grouplb/engine.go:790-837 | a failover answers from the untouched row of another member that does not cool, else binds somebody drawable, else names the first to come up or nobody |
| PoolLaws.PickShare | pkg/grouplb/binding.go:153-185 | the pick is a given healthy entry exactly for the draws of one interval of its own weight out of the healthy total |
| GroupLaws.FullLaw | pkg/grouplb/engine.go:503-571 | the full path of the default pool is such a lookup and touches nothing else |
| GroupLaws.BackupFullLaw | pkg/grouplb/engine.go:984-1050 | so is that of the backup pool, with a weighted backup list; without one it fails and changes nothing |
| GroupLaws.ReadLaw | pkg/grouplb/engine.go:472-501 | the optimistic read hits exactly a usable row; the re-check refreshes exactly a row that still names the hit, has not idled beyond ttl and does not cool |
| GroupLaws.SnapshotLaw | pkg/grouplb/engine.go:909-920 | the fast path is offered exactly for the only entry of a weighted backup list with no cooldown row stored |
| GroupLaws.FastLaw | pkg/grouplb/engine.go:928-982 | the fast path serves exactly a row that has not idled beyond ttl, else binds the only backup if nothing changed, else drops the row |
| GroupLaws.ExcludeLaw | pkg/grouplb/engine.go:747-838 | a failure marks the excluded member alone until exactly now + cooldown and moves its conversation in the default pool |
| GroupLaws.BackupExcludeLaw | pkg/grouplb/engine.go:1110-1169 | the same in the backup pool |
| GroupLaws.SingleLaw | pkg/grouplb/engine.go:1087-1109 | a failure of the only backup is marked and goes no further |
| GroupLaws.JanitorLaw | pkg/grouplb/engine.go:207-246 | a pass keeps exactly the rows of both pools used no more than ttl ago and the cooldown rows that end later |
| GroupLaws.ConfigurationLaw | pkg/grouplb/engine.go:590-631 | a change keeps exactly the rows of configured members in both pools, as they were, and every cooldown row |
| GroupLaws.GetLaw | pkg/grouplb/engine.go:429-571 | an uninterrupted lookup: the lone default member without a row, else the lookup of the default pool |
| GroupLaws.GetBackupLaw | pkg/grouplb/engine.go:888-1050 | an uninterrupted backup lookup, fast path included |
| GroupLaws.FailLaw | pkg/grouplb/engine.go:747-770 | uninterrupted failures: nothing with one member or no backups, a mark alone with one backup, else the section |
| GroupCalls.GetIsGetNow | pkg/grouplb/engine.go:429-571 | the sections of a lookup, one after the other, amount to the whole operation |
| GroupCalls.GetBackupIsGetBackupNow | pkg/grouplb/engine.go:888-1050 | so do those of a backup lookup |
| GroupCalls.FailIsFailNow | pkg/grouplb/engine.go:747-838 | so do those of a failover, seeded with the upstream's cooldown or else the default |
| GroupCalls.FailBackupIsFailBackupNow | pkg/grouplb/engine.go:1066-1169 | so do those of a backup failover |
| GroupCalls.AloneIsThrough | pkg/grouplb/engine.go:429-571 | the steps of a call with nothing in between take it through its sections and touch no other group and no other call |
| GroupCalls.PublishingLaw | pkg/grouplb/engine.go:590-631 | a change reaches the published state of its group alone; unknown groups are published fresh, empty ones unlinked with their state left to the calls that hold it |
| GroupCalls.LookingUpLaw | pkg/grouplb/engine.go:429-445 | a call looks its group up first and ends without a published state |
| GroupInterleaving.EveryInterleavingKeepsRows | pkg/grouplb/engine.go:442-501 | in every interleaving each row of both maps names a current member of the union, both mirrors are exact, the empty key is never stored, the pools split the members |
| GroupInterleaving.NoSectionOutOfRange | pkg/grouplb/engine.go:442-467 | in every interleaving the next section of a call can run: members[0] exists although the count was read earlier |
| GroupInterleaving.EveryAnswerIsAMember | pkg/grouplb/engine.go:472-571 | in every interleaving a finished call of either pool was answered with a member of the group as its last section saw it |
| GroupInterleaving.EveryLookupAvoidsCooling | pkg/grouplb/engine.go:547-560 | in every interleaving a lookup returns a cooling member only if the whole default pool cools, then the first to expire, and leaves no row |
| GroupAffinity.AffinityHolds | pkg/grouplb/engine.go:472-526 | any gentle sequence of lock sections answers a conversation with its member throughout |
| GroupAffinityRuns.EveryLookupKeepsAffinity | pkg/grouplb/engine.go:429-526 | in every gentle interleaving of whole calls every lookup of the conversation returns its member, through weight edits, pool flips, sweeps and other calls |
| GroupAffinity.SelectionAnchors | pkg/grouplb/engine.go:505-570 | a lookup that left a row anchors its conversation to the member it returned |
| GroupAffinity.ExclusionRebinds | pkg/grouplb/engine.go:747-838 | a healthy reselect is neither the excluded member nor a cooling one, is what the conversation is bound to, and touches no other conversation and no backup row |
| GroupAffinity.ReselectModes | pkg/grouplb/engine.go:790-837 | when a failover is healthy, first-to-expire or none, exactly; what is not healthy changes no row |
| GroupAffinity.OneRebindPerFailure | pkg/grouplb/engine.go:779-837 | any number of same-conversation failures of one member cause exactly one rebind |
| GroupJanitor.SweepInvisibleToLookups | pkg/grouplb/engine.go:207-246 | a sweep at any earlier moment changes neither member, newlyBound nor error of a lookup of either pool; the states differ in dead rows only |
| GroupJanitor.SweepVisibleToExclusionIff | pkg/grouplb/engine.go:790-803 | an exclusion of the default pool sees a sweep exactly when the group has two or more members and the already-rebound shortcut reads a dead row |
| GroupJanitor.SweepVisibleToBackupExclusionIff | pkg/grouplb/engine.go:1066-1169 | an exclusion of the backup pool sees a sweep exactly when there are two or more backups to pick and its shortcut reads a dead row |
| GroupJanitor.JanitorIsInvisible | pkg/grouplb/engine.go:207-246 | over whole runs of uninterrupted operations the answers with the janitor at any times equal the answers without it |
| GroupJanitor.JanitorNeverMatters | pkg/grouplb/engine.go:207-246 | the same from any sound state of two or more members |
| GroupJanitorSections.SectionSeesSweepIff | pkg/grouplb/engine.go:207-246 | every lock section replies as if swept, and leaves the same rows to be served, exactly when it reads nothing that the sweep took |
| GroupJanitorSections.SweepsAreInvisible | pkg/grouplb/engine.go:207-246 | over runs of lock sections of interleaved calls, all sections included, sweeps anywhere, also between the sections of one call, change no reply while no section reads what a sweep took |
| GroupJanitorSections.SweepsNeverMatter | pkg/grouplb/engine.go:207-246 | the same from any sound state |
| GroupJanitorSections.SnapshotSeesSweepIff | pkg/grouplb/engine.go:909-916 | the backup snapshot tells a swept state from an unswept one exactly with one backup and dead cooldown rows only |
| GroupJanitorSections.FastSeesSweepIff | pkg/grouplb/engine.go:928-982 | the backup fast path tells them apart exactly when the only backup is the one it saw, only dead cooldown rows are stored and the conversation has no row to serve |
| GroupWitnesses.SweepChangesBackupFailover | pkg/grouplb/engine.go:1066-1169 | the same story in the backup pool, from a lookup in a new group of four |
| GroupWitnesses.SweepChangesFailover | pkg/grouplb/engine.go:790-803 | a state reached by a lookup in which a sweep changes the member a failover answers |
| GroupWitnesses.BackupLookupServesCooling | pkg/grouplb/engine.go:936-982 | a run from the empty engine in which a backup lookup answers a member that cools at the caller's time |
| GroupStateObject.MemberInRefs | pkg/grouplb/binding.go:124-131 | membership |
| GroupStateObject.SweepRows | pkg/grouplb/engine.go:225-238 | exactly the idle rows go, and the mirror with them |
| GroupStateObject.DropOrphans | pkg/grouplb/engine.go:612-630 | exactly the rows of removed members go, and the mirror with them |
| GroupStateObject.GroupState.ApplyRefs | pkg/grouplb/engine.go:644-666 | the loop partitions the refs in order and both selectors fit their pools |
| GroupStateObject.GroupState.OnGroupChanged | pkg/grouplb/engine.go:590-631 | the object does what the configuration section says |
| GroupStateObject.GroupState.SweepOnce | pkg/grouplb/engine.go:207-246 | one janitor pass leaves exactly the live rows and cooldowns of both pools |
| GroupStateObject.GroupState.DefaultPoolHealthy | pkg/grouplb/engine.go:315-339 | true exactly when the default pool has a selector and a member that does not cool |
| GroupStateObject.GroupState.UpgradeBinding | pkg/grouplb/engine.go:483-501 | the write-locked re-check refreshes exactly a row that still holds the hit, is not idle and does not cool |
| GroupStateObject.GroupState.GetOrSelect | pkg/grouplb/engine.go:429-571 | single-member shortcut, optimistic read, re-check and full path together compute the fast-path-free selection |
| GroupStateObject.GroupState.ExcludeAndReselect | pkg/grouplb/engine.go:747-838 | mark, shortcut, pick, soonest and rebind compute the failover |
| GroupStateObject.GroupState.BackupFastPath | pkg/grouplb/engine.go:928-982 | the write-locked fast path of the only backup |
| GroupStateObject.GroupState.PickBackupMember | pkg/grouplb/engine.go:888-1050 | fast path and full path together compute the fast-path-free backup selection |
| GroupStateObject.GroupState.ExcludeAndBackupReselect | pkg/grouplb/engine.go:1066-1169 | the backup failover, its single-backup refusal included |
| CredentialSelector.NewSelector | pkg/credentiallb/selector.go:28-48 | a selector exists exactly for a non-empty list of positive integer weights |
| CredentialSelector.Pick | pkg/credentiallb/selector.go:54-65 | the binary search returns the owner of the draw, as the linear walk does |
| CredentialSelector.Walk | pkg/credentiallb/binding.go:125-148 | the renormalised walk returns the owner of the draw among the healthy |
| CredentialSelector.ExactShare | pkg/credentiallb/selector.go:54-65 | exactly weight of the total draws select a healthy credential |
| CredentialSelector.EmbeddedDraw | pkg/credentiallb/selector.go:54-65 | an integer draw picks in the real-weighted pool what it picks in the integer one |
| CredentialStateObject.PickCredential | pkg/credentiallb/binding.go:116-148 | both picking paths compute the pick of the shared pool, with an integer draw |
| CredentialLaws.SelectLaw | pkg/credentiallb/engine.go:290-347 | a selection answers from a usable row and counts a hit, else answers afresh and counts a miss unless it fails |
| CredentialLaws.ReadLaw | pkg/credentiallb/engine.go:255-288 | the optimistic read hits exactly a usable row; the re-check refreshes and counts exactly one that still stands |
| CredentialLaws.FailureLaw | pkg/credentiallb/engine.go:688-764 | a failure marks exactly until now + cooldown, moves the conversation, and counts exactly when it drew somebody |
| CredentialLaws.DeletionLaw | pkg/credentiallb/engine.go:435-457 | a deletion takes every row that names the credential and its cooldown row and nothing else; the gauge falls by the number of those rows |
| CredentialLaws.DeletedIsNoHit | pkg/credentiallb/engine.go:435-457 | a lookup after it answers afresh and counts no hit |
| CredentialLaws.JanitorLaw | pkg/credentiallb/engine.go:149-181 | a pass keeps exactly the rows used no more than ttl ago and the cooldown rows that end later |
| CredentialLaws.ConfigurationLaw | pkg/credentiallb/engine.go:366-395 | a change keeps exactly the rows of configured credentials, every cooldown row and the stats |
| CredentialLaws.LookupIsSelect | pkg/credentiallb/engine.go:225-348 | a lookup whose sections run one after the other is the selection |
| CredentialEngine.HitsAndMissesCountLookups | pkg/credentiallb/engine.go:225-348 | in every interleaving Hits + Misses grows by exactly the number of multi-credential lookups that returned a credential |
| CredentialEngine.RunKeeps | pkg/credentiallb/engine.go:225-348 | in every interleaving rows name configured credentials, the Bindings gauge is exact, the empty key is never stored |
| CredentialEngine.EveryLookupAvoidsCooling | pkg/credentiallb/engine.go:290-347 | in every interleaving a lookup hands out a cooling credential only if all cool, then the first to expire, with no row left |
| CredentialEngine.FailoverTicks | pkg/credentiallb/engine.go:688-764 | Failovers ticks exactly for a healthy answer that is not the no-op; the answer is neither excluded nor cooling, bound, and alone touched |
| CredentialEngine.FailoverModes | pkg/credentiallb/engine.go:690-765 | when a failover is healthy, first-to-expire or none, exactly; what is not healthy changes neither rows nor stats |
| CredentialEngine.RepeatedFailuresAreNoOps | pkg/credentiallb/engine.go:702-724 | any number of further failures answer the same credential and change neither row nor Failovers |
| CredentialEngine.SweepInvisibleToLookups | pkg/credentiallb/engine.go:149-181 | a sweep changes neither answer nor what Hits and Misses count |
| CredentialEngine.SweepVisibleToFailoverIff | pkg/credentiallb/engine.go:702-724 | a failover answers and ticks as if swept, and leaves the same rows, exactly when its no-op test reads no dead row |
| CredentialWitnesses.SweepChangesFailover | pkg/credentiallb/engine.go:702-724 | a state reached by a lookup in which a sweep changes the credential a failover answers and whether Failovers ticks |
| CredentialAffinity.AffinityHolds | pkg/credentiallb/engine.go:260-348 | in any considerate run of lock sections a conversation is answered its credential throughout, its lookups tick Hits and its failures of other credentials tick nothing |
| CredentialAffinity.OneMovePerFailure | pkg/credentiallb/engine.go:688-764 | a healthy failover moves the conversation once, whatever lookups, failovers, configuration changes, deletions and sweeps follow considerately |
| CredentialFleet.EveryObjectIsAccounted | pkg/credentiallb/engine.go:366-457 | over every run of the engine, removals of models included, every state object ever published has exact rows, gauge and tick count, and each model an object of its own |
| CredentialFleet.ReachingLaw | pkg/credentiallb/engine.go:366-395 | a change reaches the published object of its model alone, and none of its lookups |
| CredentialFleet.PublishingLaw | pkg/credentiallb/engine.go:366-395 | unknown models are published under a fresh object, models without credentials unlinked with their object left to the calls that hold it |
| CredentialFleet.ObjectsAreIsolated | pkg/credentiallb/engine.go:149-181 | what a run does to a model's object is the run of that object's own sections, whatever happens to other models |
| CredentialEngine.CooldownPolicy.SetQuotaCooldown | pkg/credentiallb/failure_class.go:72-88 | the stored quota cooldown is the nearest point of the documented window |
| CredentialEngine.CooldownPolicy.CooldownFor | pkg/credentiallb/failure_class.go:119-145 | a seeded cooldown is positive; for quota it is the larger of the configured value and the upstream's wish clamped to a day; rate limit honours the upstream verbatim |
| CredentialStateObject.ModelState.OnModelChanged | pkg/credentiallb/engine.go:366-395 | rows of dropped credentials go, everything else stays |
| CredentialStateObject.ModelState.OnCredentialDeleted | pkg/credentiallb/engine.go:435-457 | exactly the rows and the cooldown row of the credential go |
| CredentialStateObject.ModelState.SweepOnce | pkg/credentiallb/engine.go:149-181 | exactly the live rows and cooldowns stay |
| CredentialStateObject.ModelState.GetOrSelect | pkg/credentiallb/engine.go:225-348 | with two or more credentials the fast and full paths compute the selection with its ticks; with one, no row and no tick |
| CredentialStateObject.ModelState.ExcludeAndReselect | pkg/credentiallb/engine.go:653-765 | the failover with its tick; nothing with fewer than two credentials |
| JsonText.QuoteReadable | pkg/credentiallb/key.go:214-221 | a string literal can be read off the front of any text: its contents and what follows |
| CanonicalJson.Readable | pkg/credentiallb/key.go:152-210 | no two printed values can be confused where both end at a comma or a closing bracket |
| CanonicalJson.AlikeIsSame | pkg/credentiallb/key.go:35-39 | values that print alike differ in the order of array elements only |
| CanonicalJson.SameIsAlike | pkg/credentiallb/key.go:137-145 | permuting array elements at any depth does not change the text |
| CanonicalJson.CanonicalTextIsExact | pkg/credentiallb/key.go:146-210 | equal texts exactly for values equal up to the order of array elements, at every depth |
| JsonGrammar.CanonIsText | pkg/credentiallb/key.go:152-210 | the printed text is, by the grammar of RFC 8259, a JSON text of the value up to the order of array elements |
| JsonGrammar.QuoteIsLiteral | pkg/credentiallb/key.go:214-221 | the printed literal spells the string by the escapes of section 7 |
| JsonGrammar.EscapeLaw | pkg/credentiallb/key.go:214-221 | exactly quote, backslash, controls, angle brackets, ampersand and the two separators are escaped, seven of them by a letter |
| JsonGrammar.OrderLaw | pkg/credentiallb/key.go:137-145 | keys and rendered elements stand in dictionary order |
| ConversationKey.Write | pkg/credentiallb/key.go:152-210 | the printer with its loops and sorts writes the canonical text |
| ConversationKey.ExtractLeadingUserRun | pkg/credentiallb/key.go:91-135 | the walk with its early exit yields the canonical text of the leading run |
| ConversationKey.EmptyRunIff | pkg/credentiallb/key.go:126-128 | the text is empty exactly when every usable message stands behind one that ends the run |
| ConversationKey.SameRunIff | pkg/credentiallb/key.go:129-134 | two lists have one run text exactly when they collected the same contents up to order |
| ConversationKey.RunIsStable | pkg/credentiallb/key.go:60-68 | inserted system messages, empty user messages and everything behind a message that is neither leave what is collected alone |
| ConversationKey.CollectionLaw | pkg/credentiallb/key.go:91-135 | message by message: system is passed over, a user message gives content of substance, anything else ends the run |
| ConversationKey.KeyInputReads | pkg/credentiallb/key.go:48-51 | the hashed text reads model, bar, token, bar, run |
| ConversationKey.KeyInputInjective | pkg/credentiallb/key.go:48-51 | between ids without a bar the hashed text determines model, token and run |
| ConversationKey.BarAliases | pkg/credentiallb/key.go:48-51 | an id with a bar shares its hashed texts with another model and token |
| Recency.PutEvictsOnlyLeastRecent | pkg/modelscache/lru.go:57-72 | a put loses another key only when it adds to a full map, then the least recent alone |
| Recency.SurvivesIff | pkg/modelscache/lru.go:57-72 | a key survives puts of other keys exactly while the more recent keys are fewer than the capacity |
| Recency.TouchLaw | pkg/modelscache/lru.go:36-43 | a read moves its key to the front and all others stay in order, so that it survives puts of fewer other keys than the capacity |
| LruCache.Lru.Get | pkg/modelscache/lru.go:36-43 | finds the value and moves its key to the front |
| LruCache.Lru.Peek | pkg/modelscache/lru.go:47-53 | finds the value and changes nothing |
| LruCache.Lru.Put | pkg/modelscache/lru.go:57-72 | refines the recency sequence: overwrite in place or insert and evict |
| LruCache.Lru.Delete | pkg/modelscache/lru.go:75-80 | forgets one key and nothing else |
| TokenLaws.ValidationLaw | pkg/modelscache/tokens.go:177-250 | malformed is refused and a standing denial or token replayed without the store and without a trace; in every other case the store decides, in each way it can |
| TokenLaws.PeekLaw | pkg/modelscache/tokens.go:153-174 | an interleaved validation ends at its peek exactly with a standing answer |
| TokenLaws.DenialIsReplayed | pkg/modelscache/tokens.go:137-145 | a denial is replayed for the negative TTL whatever the store would say by then |
| TokenLaws.VouchedIsReplayed | pkg/modelscache/tokens.go:117-133 | a vouched token is replayed until the positive TTL or its own end whatever the store would say by then |
| TokenLaws.IndexLaw | pkg/modelscache/tokens.go:97-110 | indexing an id moves nothing else, and only in a full queue does the oldest id go, alone |
| TokenLaws.DropLaw | pkg/modelscache/tokens.go:281-310 | a drop clears the entry of the indexed hash alone, and a deletion alone forgets the id |
| TokenLaws.DropReachesTheNewest | pkg/modelscache/tokens.go:281-310 | a token just installed is reached by the deletion of its id |
| TokenProvenance.EveryVerdictIsAccounted | pkg/modelscache/tokens.go:177-250 | in every interleaving each verdict has its provenance: vouched for under the same hash, from the cache only before TTL and clamp, degraded only within the stale cap with an installation as the last event, denials likewise |
| TokenProvenance.RefusalSticks | pkg/modelscache/tokens.go:214-242 | after a denial or a drop, evictions included, and until the token is installed again, only a store that vouches in that very call allows |
| TokenRevocation.RefusalIsFinalIff | pkg/modelscache/tokens.go:203-240 | a refusal is final until the store gives its word anew exactly when no validation or creation with the store's word was still to be installed when it was recorded |
| TokenRevocation.NothingComesBack | pkg/modelscache/tokens.go:281-310 | with nothing under way, no run without a new word of the store allows the hash again |
| TokenRevocation.PendingComesBack | pkg/modelscache/tokens.go:193-206 | with something under way, a run without a new word of the store allows the hash from the cache |
| TokenRevocation.DeletedTokenPends | pkg/modelscache/tokens.go:281-293 | a run from the empty cache in which a deletion overtakes a validation that then still installs the token |
| TokenWitnesses.ExpiredTokenIsServed | pkg/modelscache/tokens.go:231-241 | a run from the empty cache in which a token is allowed at its own expiry |
| TokenWitnesses.DroppedIdFallsOut | pkg/modelscache/tokens.go:97-110 | whatever the bound of the index, a run from the empty cache after which a deletion leaves the token's entry |
| TokenProvenance.DropReachesIff | pkg/modelscache/tokens.go:281-310 | a deletion or permission update clears the cached token exactly when the bounded index knows the id |
| TokenStoreObject.CachedTokenStore.RememberId | pkg/modelscache/tokens.go:97-110 | the bounded reverse index and its queue |
| TokenStoreObject.CachedTokenStore.StorePositive | pkg/modelscache/tokens.go:117-133 | a positive entry, fresh until the TTL or the clamp, and its index row |
| TokenStoreObject.CachedTokenStore.StoreNegative | pkg/modelscache/tokens.go:137-145 | a negative entry and no index row |
| TokenStoreObject.CachedTokenStore.CachedVerdict | pkg/modelscache/tokens.go:153-174 | the definitive cached answer, if there is one |
| TokenStoreObject.CachedTokenStore.ValidateToken | pkg/modelscache/tokens.go:177-250 | the three-tier validation on the object |
| TokenStoreObject.CachedTokenStore.DropToken | pkg/modelscache/tokens.go:281-310 | the section of a deletion and of a permission update |
| TokenStoreObject.ExpiredTokenServedIff | pkg/modelscache/tokens.go:231-241 | a token past its expiry is allowed exactly when the store vouches or is unreachable within the cap |
| TokenStoreObject.ValidatedIsARun | pkg/modelscache/tokens.go:177-250 | the uninterrupted validation is the interleaved one with nothing in between |
| ModelsFlights.RunKeeps | pkg/modelscache/models.go:453-503 | in every interleaving of the sections of reads with writes and reconciler passes, whatever the store answers: rows under their own ids, an exact list snapshot, sound claims, honest negatives; direct reads keep identity, a client's answer has the id or is an enabled group that claims it, and nothing without an outage was denied by the store within the negative TTL |
| ModelsFlights.TiersKeptIff | pkg/modelscache/models.go:990-994 | the tiers stay disjoint exactly in the steps that do not note a denial of an id whose row was cached meanwhile |
| ModelsFlightClaims.ClaimsKeptIff | pkg/modelscache/models.go:1010-1033 | in every interleaving the claim index stays complete exactly in the steps that do not install a plain row over the indexed claimant of a contested id |
| ModelsFlightClaims.CalmRunRedirects | pkg/modelscache/models.go:453-463 | at every moment of every interleaving without such a step an id is redirected exactly when a cached enabled group claims it, to one that does |
| ModelsFlightClaims.ClientMeetsClaimant | pkg/modelscache/models.go:477-492 | there, a client read that looks at the claims, first or after a denial, answers a claimant if one is cached and else goes on |
| ModelsFlightClaims.DenialIsNotedUnclaimed | pkg/modelscache/models.go:477-492 | in every interleaving a client read comes to note a denial only from a section that saw the id unclaimed |
| ModelsTimeliness.CoherentIffTimely | pkg/modelscache/models.go:1126-1140 | a step of a read or of the reconciler keeps the cache coherent exactly when what it installs still holds |
| ModelsTimeliness.TimelyReadsAreExact | pkg/modelscache/models.go:453-503 | in every interleaving of timely steps each read by id answers what the store held at the moments its sections ran, and a read by name a stored row, of that name or denied by the store if the store decided |
| ModelsTimeliness.PrimedIsExact | pkg/modelscache/models.go:199-229 | priming from the store starts such an interleaving |
| ModelsFlightRuns.DenialHidesRow | pkg/modelscache/models.go:477-497 | a run in which a denied fill hides a row added meanwhile, from a healthy cache |
| ModelsFlightRuns.FillUndoesUpdate | pkg/modelscache/models.go:1126-1140 | a run in which a fill installs the old row over the updated one |
| ModelsFlightRuns.DirectFillLosesClaim | pkg/modelscache/models.go:1113-1142 | a run from priming in which a direct read in flight loses a claim with a claimant cached |
| ModelsFlightRuns.BelievedScanEmptiesCache | pkg/modelscache/models.go:375-406 | a run in which an empty scan, judged before an addition and applied after it, empties the list |
| ModelsFlightRuns.UninterruptedReadIsGetModel | pkg/modelscache/models.go:453-503 | the sections of a client read, one after the other, do what the whole operation does |
| ModelsFlightReads.UninterruptedReadIsWhole | pkg/modelscache/models.go:506-528 | so do those of a direct read, a resolver's and one by name |
| ModelsLaws.ReconcileLaw | pkg/modelscache/models.go:347-407 | a failed scan, one with no models over a non-empty list, or one with no credentials over cached ones clears the health flag alone; any other is what every tier then holds |
| ModelsLaws.JudgementLaw | pkg/modelscache/models.go:375-390 | the judging section of an interleaved pass rejects exactly such scans, by what is listed at that moment |
| ModelsLaws.ApplicationLaw | pkg/modelscache/models.go:199-229 | applying a rejected scan clears the health flag alone, a believed one is what every tier then holds |
| ModelsLaws.ClientReadLaw | pkg/modelscache/models.go:453-503 | the claim, then a denial within the TTL or a cached row without the store, then the store |
| ModelsLaws.DirectReadLaw | pkg/modelscache/models.go:1113-1142 | the same without the claim |
| ModelsLaws.ResolverReadLaw | pkg/modelscache/models.go:680-724 | the same with a cached row before a denial |
| ModelsLaws.NamedReadLaw | pkg/modelscache/models.go:506-528 | a denial of the name within the TTL, a cached row the name leads to, the store |
| ModelsLaws.AdditionLaw | pkg/modelscache/models.go:804-826 | every tier after an addition, entry by entry |
| ModelsLaws.UpdateLaw | pkg/modelscache/models.go:838-871 | every tier after an update: the old row and changed name go, the claims given up and taken are evicted |
| ModelsLaws.RemovalLaw | pkg/modelscache/models.go:880-902 | every tier after a removal: row, name, both denials and the claimed id go |
| ModelsSafety.RunKeeps | pkg/modelscache/models.go:804-902 | every run of whole operations keeps rows under their own ids, disjoint positive and negative tiers, a list snapshot equal to the rows, sound claims and honest negatives |
| ModelsSafety.NothingMeansDenied | pkg/modelscache/models.go:453-503 | no outage is read as not-found: nothing means the store denied the id within the negative TTL, or was asked and unreachable and the cache says unhealthy |
| ModelsSafety.ReconcileIsAllOrNothing | pkg/modelscache/models.go:347-407 | a failed or suspiciously empty scan changes the health flag alone; a believed one installs exactly its rows |
| ModelsSafety.ClaimsKeptIff | pkg/modelscache/models.go:1010-1033 | among whole operations the index stays complete exactly for those that do not replace a contested claimant by a plain row read by name |
| ModelsSafety.ClientSeesClaimant | pkg/modelscache/models.go:453-473 | in runs of whole operations a client lookup yields a cached enabled claimant if there is one, without the store, else the row of that very id or nothing |
| ModelsSafety.DirectReadsKeepIdentity | pkg/modelscache/models.go:1113-1142 | direct reads and the resolver's row lookup never yield a row with a different id, in any run |
| ModelsSafety.GroupWriteTakesClaim | pkg/modelscache/models.go:804-826 | a group write redirects clients at once while a direct read of the evicted row gets and caches the store's row without giving the id back |
| ModelsSafety.UpsetLosesClaim | pkg/modelscache/models.go:1022-1032 | a primed cache in which a claim is lost with a claimant cached |
| ModelsTransparency.CacheIsTransparent | pkg/modelscache/models.go:98-103 | with all writes through the decorator, every read of every run of whole operations answers as the uncached manager would, unless the store must be asked and is unreachable, which reads as nothing and unhealthy |
| ModelsTransparency.PrimedIsCoherent | pkg/modelscache/models.go:199-229 | priming from the store starts such a run |
| ModelsNames.NamesKeptIff | pkg/modelscache/models.go:838-871 | the name index stays true exactly when the written row, unless the write evicts it itself, has no second name in it |
| ModelsNames.NamedRowHasName | pkg/modelscache/models.go:506-528 | with a true index a read by name yields a row of that name |
| ModelsNames.OldNameLingers | pkg/modelscache/models.go:856-866 | a run after which an old name yields the renamed row |
| ModelsConfigObject.CachedModelsConfig.ApplySnapshot | pkg/modelscache/models.go:199-229 | every tier rebuilt from one scan |
| ModelsConfigObject.CachedModelsConfig.RebuildClaims | pkg/modelscache/models.go:245-253 | in any order of the walk: a claimant for every claimed id and nothing else |
| ModelsConfigObject.CachedModelsConfig.EvictClaimEntries | pkg/modelscache/models.go:260-268 | exactly the named ids leave both tiers |
| ModelsConfigObject.CachedModelsConfig.CacheModel | pkg/modelscache/models.go:1010-1033 | a fill, with a rebuild for groups only |
| ModelsConfigObject.CachedModelsConfig.ActiveClaim | pkg/modelscache/models.go:455-463 | the cached enabled group that the index names |
| ModelsConfigObject.CachedModelsConfig.GetModel | pkg/modelscache/models.go:453-503 | claims first, then negative, hit, fill, and the claims again before a denial is noted |
| ModelsConfigObject.CachedModelsConfig.GetModelNative | pkg/modelscache/models.go:1113-1142 | the claim-blind read |
| ModelsConfigObject.CachedModelsConfig.ResolveModel | pkg/modelscache/models.go:680-724 | the resolver's row lookup |
| ModelsConfigObject.CachedModelsConfig.GetModelByName | pkg/modelscache/models.go:506-528 | the read by name |
| ModelsConfigObject.CachedModelsConfig.AddModel | pkg/modelscache/models.go:804-826 | the write-through of an addition with its eviction |
| ModelsConfigObject.CachedModelsConfig.UpdateModel | pkg/modelscache/models.go:838-871 | the write-through of an update, releasing the old claim and taking the new |
| ModelsConfigObject.CachedModelsConfig.RemoveModel | pkg/modelscache/models.go:880-902 | the write-through of a removal |
| ModelsConfigObject.CachedModelsConfig.ReconcileOnce | pkg/modelscache/models.go:347-407 | one reconciler pass |
| GroupRules.ValidateGroupMembers | pkg/models/group.go:120-219 | accepts exactly the groups that satisfy the rules, and reports a fault that the input has |
| GroupService.PassedMeans | pkg/models/group.go:120-219 | what a passed group is, in the values: one to sixteen distinct listed chat models of positive weight, a default one among them, and a free claim |
| GroupService.MeansPassed | pkg/models/group.go:120-219 | nothing more is asked |
| GroupService.PassedIsServed | pkg/store/database/store.go:1626-1646 | a passed group is published in order and a lookup in it never fails: a default member is served |
| GroupRules.ValidIsAccepted | pkg/models/group.go:192-216 | a group that passed claims an existing chat model that no other enabled group claims |
| GroupRules.ClaimedModelBecomesGroup | pkg/models/group.go:192-216 | writes that the whole member and claim check lets pass, after which a claimed id is a group |
| GroupRules.AcceptedWritesOrderlyIff | pkg/models/group.go:192-216 | accepted writes keep claims unique and claimed ids plain exactly when they do not turn a claimed model into a group |
| StreamFolder.OneDoneAtTheEnd | pkg/providers/openai.go:517-712 | at most one done event, always last, exactly when an end marker was read or an unbroken stream carried a finish reason; otherwise an error is last |
| StreamFolder.DoneCarries | pkg/providers/openai.go:415-515 | a finish response has the last non-zero usage of any chunk, and each tool call is exactly the fragments of its index however they interleave |
| StreamLaws.OutputCarries | pkg/providers/openai.go:517-712 | before the closing event: the contents joined in order, every fragment, the plain reasoning that counts, each choice's items and one error per garbled line, nothing lost, doubled or reordered |
| StreamLaws.BodyLaw | pkg/providers/openai.go:520-538 | what is read: the lines before the first end marker |
| StreamLaws.LinesInOrder | pkg/providers/openai.go:517-712 | what some lines lead to is the beginning of what more lines do |
| StreamLaws.LineInOrder | pkg/providers/openai.go:555-660 | within a line content, reasoning, tool calls, and no empty event |
| StreamLaws.ItemLaw | pkg/providers/openai.go:598-625 | an item against what was last issued: contained is not told, an extension is told by its rest, anything else whole |
| StreamLaws.NewsIsToldVerbatim | pkg/providers/openai.go:598-625 | a choice that sends news only is told word by word |
| StreamLaws.KeptCovers | pkg/providers/openai.go:1072-1133 | what is kept of a choice's entries covers every entry that counts |
| StreamLaws.KeptIsNews | pkg/providers/openai.go:1072-1133 | and no text of it stands in what was kept before it |
| StreamLaws.KeptCounts | pkg/providers/openai.go:1072-1133 | and it makes nothing up |
| StreamLaws.UsageLaw | pkg/providers/openai.go:540-548 | the usage of the last chunk that reports any is remembered |
| StreamLaws.UnfinishedLaw | pkg/providers/openai.go:415-515 | without a finish reason the response is the usage, if any was reported |
| StreamLaws.FragmentLaw | pkg/providers/openai.go:633-659 | fragments are told apart by index, arguments joined in order, the last id and name that are not empty count |
| StreamReasoning.CumulativeToldOnce | pkg/providers/openai.go:584-625 | the thinking events of a cumulative choice spell its final text exactly once, for chains of any length and with chunks that carry no reasoning of it anywhere in between |
| StreamReasoning.OutputToldOnce | pkg/providers/openai.go:584-625 | the same of everything that is sent |
| StreamProcessor.ExtractReasoning | pkg/providers/openai.go:1072-1133 | the extraction loops keep what is not blank, of known type and not yet contained |
| StreamProcessor.IssueItems | pkg/providers/openai.go:598-625 | cross-chunk dedup by containment and suffix |
| StreamProcessor.AddFragments | pkg/providers/openai.go:633-659 | the two accumulator maps hold what the fragments of each index amount to |
| StreamProcessor.BuildTools | pkg/providers/openai.go:433-452 | the accumulated calls as a list, missing indices empty |
| StreamProcessor.ProcessStream | pkg/providers/openai.go:379-712 | the loop sends exactly the specified events |
| LoopDetection.FindRepeatingPattern | pkg/loopdetection/strategy_cycle.go:69-118 | reports exactly when some non-constant block of that length repeats often enough, with the rightmost start and its maximal repeats |
| LoopDetection.AnalyzeCycles | pkg/loopdetection/strategy_cycle.go:39-65 | sound and complete over all lengths, shortest first |
| LoopDetection.CycleLaw | pkg/loopdetection/strategy_cycle.go:69-118 | a cycle in the keys themselves: that many keys with that period, and two different ones in the first |
| LoopDetection.ReportLaw | pkg/loopdetection/strategy_cycle.go:69-118 | a reported cycle is the last one of its length to start, with exactly all its repeats, critical from three on |
| LoopDetection.ShortestLaw | pkg/loopdetection/strategy_cycle.go:57-65 | of all lengths within bounds the shortest is reported |
| LoopDetection.FirstOscillationLaw | pkg/loopdetection/strategy_actions.go:86-130 | a reported oscillation is the first of the window, with exactly all its repeats, and never critical |
| LoopDetection.FlattenLaw | pkg/loopdetection/strategy_cycle.go:39-50 | windows are laid end to end |
| LoopDetection.CheckConsecutiveRepeats | pkg/loopdetection/strategy_actions.go:56-83 | reports the first run that is long enough, exactly when there is one |
| LoopDetection.RepeatsMeanARun | pkg/loopdetection/strategy_actions.go:56-83 | with a threshold of two or more, exactly when that many equal keys stand in a row |
| LoopDetection.CheckOscillation | pkg/loopdetection/strategy_actions.go:86-130 | reports the first place in the window where two different keys alternate long enough |
| LoopDetection.OscillationLaw | pkg/loopdetection/strategy_actions.go:86-130 | with a limit of two or more, reported exactly when two different keys alternate limit times among the last 2 * limit + 2 |
| LoopDetection.OscillationIsComplete | pkg/loopdetection/strategy_actions.go:97-113 | with a limit of two or more the scan's bound on the start loses nothing |
| SessionId.PaddedRoundTrip | pkg/providers/opencodego.go:287-306 | every number comes back, and the width is exact precisely below 62^width |
| SessionId.ReverseInPlace | pkg/providers/opencodego.go:298-301 | the two-index swap reverses the array |
| SessionId.EncodeBase62Padded | pkg/providers/opencodego.go:287-306 | the division loop, the reversal and the padding print the padded numeral |
| SessionId.DeriveSessionId | pkg/providers/opencodego.go:278-283 | prefix, hexadecimal slot and base-62 slot, thirty characters in all |
| SessionId.SessionIdLaw | pkg/providers/opencodego.go:257-306 | the id read back: the prefix, each of six bytes as two hexadecimal digits, and the number of the next ten in fourteen digits of base 62 |
| SessionId.SessionIdInjective | pkg/providers/opencodego.go:257-283 | an id determines exactly the sixteen hash bytes it was made of |
| ByteCount.ParseIsExact | pkg/memlimit/memlimit.go:138-190 | a well-formed text is parsed to its value, or rejected exactly when the scaled value exceeds an int64 |
| ByteCount.AcceptsExactly | pkg/memlimit/memlimit.go:138-190 | the parser accepts exactly the texts that denote a value, with that value |
| ByteCount.ParsesInNumbers | pkg/memlimit/memlimit.go:138-190 | digits and a suffix are parsed to their number times the power of 1024, below 2^63 |
| ByteCount.NumberLaw | pkg/memlimit/memlimit.go:138-190 | decimal text is positional |
| ByteCount.FormatLaw | pkg/memlimit/memlimit.go:195-210 | the printed suffix is the largest that divides the count |
| ByteCount.NegativeFormat | pkg/memlimit/memlimit.go:195-210 | a negative count is printed as bytes and not parsed back |
| ByteCount.RoundTrip | pkg/memlimit/memlimit.go:195-210 | printing and parsing back is the identity on 0..2^63-1 |

## Left out

- Weights of group members are reals: the rounding of 64-bit floats is not modelled, nor is the overflow of the 64-bit counters of the stats.
- Member and credential ids are not empty: the engines use the empty id for "none", and the write rules refuse empty ids (pkg/models/group.go:163, GroupRules).
- `RebindFromStore` of the credential engine replaces refs without filtering rows and runs at startup only; it is not a step of the runs.
- CredentialEngine.RunKeeps: is about one model's state object, which is all that a call holds once it has looked its model up; CredentialFleet says it of the engine with its map of models and their removal.
- Nil receivers, logging, `Stop`, tickers, panic recovery and the test hooks of both engines; the janitor and the reconciler are steps that may happen at any time.
- The seeded random generators: a draw is an input. SHA-256 and the token hash: a hash is an input.
- ModelsSafety.NothingMeansDenied: is about runs of whole operations; ModelsFlights.RunKeeps says the same of interleaved sections. In both, between a read and the separate health query another call may set the flag again, as pkg/modelscache/models.go:824 does.
- ModelsSafety.RunKeeps: is about runs of whole operations; ModelsFlights.RunKeeps and ModelsFlights.TiersKeptIff say what is left of it when reads interleave.
- ModelsTransparency.CacheIsTransparent: is about runs of whole operations, see ModelsTimeliness for interleaved ones; it assumes that the store stays orderly (see GroupRules.AcceptedWritesOrderlyIff) and that an update releases and claims no id that is a group afterwards; reads by name are treated in ModelsNames instead.
- ModelsSafety.ClaimsKeptIff: is about whole operations, as is ModelsSafety.ClientSeesClaimant; ModelsFlightClaims says both of interleaved sections.
- ModelsTimeliness.TimelyReadsAreExact: that a read by name from the cached tiers yields a row of that name is ModelsNames' subject, in whole operations; a write and its write-through are one step, at the moment of the write-through, and the store is asked in one step; a client read that the claims did not answer is said to be exact for the row, with the id unclaimed when it looked at the claims first.
- CredentialEngine.RepeatedFailuresAreNoOps: is about failures in a row; CredentialAffinity.OneMovePerFailure has anything considerate in between.
- GroupJanitor.JanitorIsInvisible: is about uninterrupted operations; GroupJanitorSections.SweepsAreInvisible says it of interleaved sections, for callers whose time was captured no earlier than the sweep's.
- The enabled-only list, the order of the list snapshots and the credential cache: they would add easy members; the credential rows enter the suspicious-empty test only.
- Deep copies of cached rows: rows are values here.
- StreamProcessor.ProcessStream: assumes tool-call indices that are not negative and no tool-call repairer; JSON decoding of a chunk, the splitting of lines and the reasoning fields of a final message are inputs.
- StreamReasoning.CumulativeToldOnce: a thinking event carries the choice it came from only in the model; the source sends the text alone.
- JSON numbers are their printed literals; text that is not valid UTF-8, which Go's encoder replaces, does not occur in decoded JSON.
- SQL stores, encryption, HTTP handlers and header plumbing: foreign calls and thin branching.
- SimHash, trigram and stagnation detection: they rest on floating point and a fingerprint that is not part of this model.
- Configuration and kind validation outside the group rules: single-branch checks.
