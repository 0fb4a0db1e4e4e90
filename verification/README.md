# EdgeVault: a model of its core, and what is proved about it

EdgeVault keeps configuration in per-workspace vaults and serves it from an edge
cache. This project models the parts where a wrong step is expensive, as Dafny
programs that follow the TypeScript code, and proves what the code promises over
all inputs, all runs and all interleavings.

`dafny verify dfyconfig.toml` checks everything.

## What is modelled

**The vault and its reference graph, up to the edge cache.** Items hold `${KEY}`
and `${env/KEY}` references. `References` scans them and expands them with a
stack, and has the position of the regular expression that all of this shares;
`Vault` gives every operation as a function on the tables; `VaultStore` holds the
classes that update them. `VaultInvariant` is what every operation keeps,
`Resolution` what expansion means in such a state, `EdgeCache` the agreement of
the incrementally published store with full recomputation over every run, and
`ClosedEntries` what the store holds for secrets. `History` is about versions,
deletion and restore. `Gaps`, `Interleaving` and `HiddenReferences` are about
promises the write path does not keep, `Landing` among them about deletions too;
`Positions` is what the regular expression's position does to a write, and
`Graph` holds walks and acyclicity. `Targets` and `Rows` say without the model's own
helpers which item a reference names and what an operation leaves.

**Promotions.** `PromotionWorkflow` is the durable workflow as a step system in
which vault operations interleave; `Risk` the floor under the model's verdict.

**Usage metering.** `ObjectKey` names archived batches by a `Calendar` day,
`Archive` lists them by name, `Metering` collects them, `Usage` counts their units,
`Billing` groups, reports and moves the watermark, `Mau` does the same for calendar
months.

**Exclusive XML canonicalization.** `C14n` is the serializer, `C14nNamespaces`,
`C14nInvariance`, `C14nOrder` and `C14nEscaping` its properties, `C14nReading` a
reader that gets the form back from the text, `Ordering` the sorting.

**Smaller cores.** `Base32` and `Totp`, `Staleness` (two stacked caches),
`Cidr` (addresses and blocks), `Diff`, `Anomaly` and `Members`. `Arithmetic`,
`Texts` and `Wrappers` are shared.

## Where the code does less than it says

Each of these is a lemma, with the condition under which the promise holds.

- packages/refs/src/index.ts:19 is one global regular expression for everything in
  a worker. `hasRefs` leaves its position behind the first reference, and
  `extractRefs` starts from there: after a look at a document with references, the
  next write may have its references neither checked nor recorded
  (`References.TestHidesReference`, `HiddenReferences.LookThenDangle`; exactly when
  they all lie before the position, `Positions.WriteFromPositionExactly`). The
  invariant of the graph holds throughout a run exactly when no write of it is like
  that (`EdgeCache.InvariantExactly`), and then the cache agrees; looks at documents
  are what moves the position (`EdgeCache.OnlyLooksMove`).
- apps/api/src/durable-objects/vault.ts:526-531 says a graph that is too deep can
  never be stored. Depth is checked from the item being written only: a dependent's
  chain can grow past the limit afterwards, and its raw content is then published
  (`Gaps.ChainsOutgrowTheLimit`; `Resolution.StoredResolution` has the condition).
- `setConfig` and `deleteConfig` await a hash between checking and writing. Two
  writes that interleave there can close a cycle
  (`Gaps.InterleavedWritesCloseACycle`) or point at a secret; a deletion can leave a
  reference dangling, or a write's edges without their item
  (`Landing.OvertakingIsReachable`). `Landing.LandingExactly` says exactly which
  pairs of operations do, with `Interleaving.InterleavingExactly` for two writes.
  Two operations on one live item get the same version
  (`Landing.SameKeySameVersion`).
- A plain write to a deleted key restarts at version 1. A later delete and restore
  can then bring back an older life's content (`History.RestoreResurrectsFirstLife`;
  `History.RestoreSourceExact` has the condition).
- An item that turns into a secret keeps its old entry in the edge store
  (`ClosedEntries.SecretKeepsOldEntry`), exactly when it had one
  (`ClosedEntries.NothingLeftExactly`). The store holds what each live item had
  when it was last not secret (`ClosedEntries.EdgeHoldsLastOpen`).
- The risk scan scores the source's live content, not the snapshot that is
  applied, so a change can be applied unapproved although its floor asks for
  approval (`PromotionWorkflow.JumpAppliedUnapproved`; not when the floor at the scan
  covers that of what is applied, `PromotionWorkflow.AppliedMeetsFloor`).
- Two organizations that share a billing customer share the monthly identifier,
  and the second report of the month is ignored (`Mau.ExactUnlessShared`).
- The client sends any number of keys in a batch, the edge worker answers the
  first hundred; the others are returned and cached as missing
  (`Staleness.LongBatchHidesAStoredKey`), or as records with nothing but the key if
  their names are inherited by every object, such as `constructor`
  (`Staleness.LongBatchInventsARecord`). The keys `.` and `..` are accepted by the
  write route, and the client reads them as missing
  (`Staleness.DotSegmentIsNeverFound`). `Staleness.ReadsAreBounded` has the
  condition.
- A batch that asks for the key `__proto__` returns an object without that field
  (`Staleness.AllAnsweredExactly`).
- Canonical XML is ordered by code points, the code compares UTF-16 units
  (`C14nOrder.CrossedAttributesAreSwapped`; `C14nOrder.W3cOrderExactly` has the
  condition).
- The diff takes an array and an object for alike (`Diff.ArrayForObjectIsInvisible`;
  `Diff.EmptyMeansEqualExactly` has the condition).
- The last-owner guard also refuses to remove or demote a deactivated owner, which
  would cost nothing (`Members.RefusalNeededExactly`,
  `Members.DemotionRefusalNeededExactly`).

When applying a promotion fails, its row stays pending, as
`VaultStore.VaultDurableObject.ApplyPromotion` states.

## How the model reads the code

- A vault operation, a database transaction and a workflow step are one step each.
  Identifiers of revisions and promotions are positions in append-only tables; an
  item is named by environment identifier and key, which is what the code's
  `environment/key` string says as long as environment identifiers hold no slash.
- Clocks, fresh identifiers, the model's answer, MACs, replies of the billing
  provider, what `toLowerCase` makes of an address and the order in which a map or a
  set is visited are parameters or arbitrary choices; SQL ties (`ORDER BY version DESC, created_at DESC LIMIT 1`)
  are any row the query may return.
- Strings are sequences of code points; where JavaScript counts or compares UTF-16
  units (the pattern's position, `<`) the model does. JavaScript's 32-bit shifts
  are written out as operations on 32-bit patterns.
- A diff entry's path is a list of steps; the code's dotted text is its display.
  Applying a diff (`Diff.Patch`) is defined here: an addition or a change sets a
  value, a removal drops a field or cuts an array.

## Model

| member | source | states |
|---|---|---|
| References.MatchAtRaw | packages/refs/src/index.ts:19-19 | the reference pattern reads every well-formed written reference back, whatever text follows |
| References.MatchAtSound | packages/refs/src/index.ts:19-19 | what the pattern accepts really is a written reference at the start of the text |
| References.ScanRoundTrip | packages/refs/src/index.ts:24-36 | scanning loses nothing: plain text and references written out again give the original text |
| References.RefPattern.ExtractRefs | packages/refs/src/index.ts:24-36 | from the shared pattern's position on, the loop returns each reference that occurs, once, in order of first use |
| References.RefPattern.HasRefs | packages/refs/src/index.ts:39-42 | true exactly when the content has a reference; the position is then the end of the first one, and 0 otherwise |
| References.ScanFindsExactly | packages/refs/src/index.ts:19-36 | scanning finds a reference exactly when it is written somewhere in the content |
| References.ExtractsAllExactly | packages/refs/src/index.ts:19-36 | extraction finds every reference of the content exactly when none has all its occurrences before the position |
| References.TestHidesReference | packages/refs/src/index.ts:19-42 | after a test of `${K}`, extraction from `${A}` finds nothing |
| VaultInvariant.SetKeepsInv | apps/api/src/durable-objects/vault.ts:676-787 | an accepted write keeps the edge table exact, every edge target a live non-secret item, the graph acyclic and every published revision equal to its item |
| VaultInvariant.CreateEnvironmentKeepsInv | apps/api/src/durable-objects/vault.ts:384-407 | a new environment keeps the invariant: no existing reference changes its target |
| VaultInvariant.DeleteKeepsInv | apps/api/src/durable-objects/vault.ts:814-854 | an accepted deletion keeps the invariant |
| VaultInvariant.RevertKeepsInv | apps/api/src/durable-objects/vault.ts:862-876 | reverting keeps the invariant |
| VaultInvariant.RestoreKeepsInv | apps/api/src/durable-objects/vault.ts:884-905 | restoring any revision the query may return keeps the invariant |
| VaultInvariant.PromoteKeepsInv | apps/api/src/durable-objects/vault.ts:933-983 | direct promotion keeps the invariant, whether or not the write succeeds |
| VaultInvariant.PendingKeepsInv | apps/api/src/durable-objects/vault.ts:998-1018 | recording a pending promotion keeps the invariant |
| VaultInvariant.ApplyKeepsInv | apps/api/src/durable-objects/vault.ts:1025-1060 | applying a snapshotted promotion keeps the invariant |
| VaultInvariant.WalksAvoidStack | apps/api/src/durable-objects/vault.ts:526-548 | why validation keeps the graph acyclic: if expansion raises nothing, no walk returns to the expansion stack, and stack and walk together fit the depth limit |
| Graph.AcyclicAfter | apps/api/src/durable-objects/vault.ts:567-587 | replacing the edges out of one node keeps a graph acyclic when no walk from that node returns to it |
| Resolution.StoredResolution | packages/refs/src/index.ts:76-100 | in every reachable state a stored non-secret item resolves exactly when no chain from it exceeds the limit, then equals plain expansion by graph rank, and the only error is depth |
| Resolution.ValidationExact | apps/api/src/durable-objects/vault.ts:532-548 | content is accepted exactly when every reference names a live non-secret item, the graph with its edges is acyclic and no chain from it is too long |
| Resolution.SecretReportedExactly | apps/api/src/durable-objects/vault.ts:535-541 | the secret error is reported exactly when some reference names a secret |
| Targets.AcceptedWriteNamesTheItem | apps/api/src/durable-objects/vault.ts:515-587 | after an accepted write `${slug/key}` names the key in the environment of that slug and `${key}` the key in the item's own, a live item that is not secret; an edge leads to each of these and to nothing else |
| Targets.ReferenceIsServed | apps/api/src/durable-objects/vault.ts:590-636 | writing one reference to an item without references serves that item's content from the edge, across environments too |
| Targets.ReferenceIsPublished | apps/api/src/durable-objects/vault.ts:590-607 | an item that is one reference is published as the content of the item it names |
| Targets.SecretIsRefused | apps/api/src/durable-objects/vault.ts:535-541 | a reference to a secret is refused as one, in whichever environment the secret is |
| Resolution.ResolveFrame | packages/refs/src/index.ts:80-100 | resolution depends only on the items in a region closed under references |
| Resolution.ContentFrame | apps/api/src/durable-objects/vault.ts:590-607 | published content, fallback included, depends only on what the item reaches |
| VaultStore.RevisionManager.LatestForKey | apps/api/src/durable-objects/revision-manager.ts:96-107 | returns a row of the key that no other row of it outranks by version, then creation time; none exactly when the key has no rows |
| VaultStore.VaultDurableObject.CreateEnvironment | apps/api/src/durable-objects/vault.ts:384-407 | adds the environment or refuses a taken slug |
| VaultStore.VaultDurableObject.GetDependents | apps/api/src/durable-objects/vault.ts:551-564 | returns exactly the items with an edge into this one, each once |
| VaultStore.VaultDurableObject.ValidateReferences | apps/api/src/durable-objects/vault.ts:532-548 | at the pattern's position, returns the first problem of the content: a secret named, or the error expansion raises; nothing when every reference is before the position; expanding resets the position |
| VaultStore.VaultDurableObject.UpdateReferenceEdges | apps/api/src/durable-objects/vault.ts:567-587 | replaces the edges out of one item by those of the references found from the pattern's position on, and keeps all others |
| VaultStore.VaultDurableObject.SetConfig | apps/api/src/durable-objects/vault.ts:676-787 | at every position of the pattern, refuses without changing a row, or writes item, revision and edges exactly as the specification says |
| VaultStore.VaultDurableObject.DeleteConfig | apps/api/src/durable-objects/vault.ts:814-854 | refuses a referenced item, or removes item and edges and appends the deletion revision |
| VaultStore.VaultDurableObject.RevertToRevision | apps/api/src/durable-objects/vault.ts:862-876 | writes the old content with default kind, type and encryption flag; nothing for an unknown revision |
| VaultStore.VaultDurableObject.RestoreConfig | apps/api/src/durable-objects/vault.ts:884-905 | refuses a live key, a key without revisions and a revision that predates restore; otherwise writes the latest revision back above its version |
| VaultStore.VaultDurableObject.Promote | apps/api/src/durable-objects/vault.ts:933-983 | records the promotion, writes the target, and marks the row completed or failed with the write |
| VaultStore.VaultDurableObject.CreatePendingPromotion | apps/api/src/durable-objects/vault.ts:998-1018 | records the source's published revision as pending, or refuses an unpublished source |
| VaultStore.VaultDurableObject.ApplyPromotion | apps/api/src/durable-objects/vault.ts:1025-1060 | writes the snapshotted revision's content with the live source's kind; on any failure nothing changes and the row stays pending |
| Rows.WriteLeaves | apps/api/src/durable-objects/vault.ts:676-787 | a write leaves the item as asked, with the defaults in the fields not given, and one revision that repeats it; every other row and edge stays |
| Rows.DeletionLeaves | apps/api/src/durable-objects/vault.ts:814-854 | a deletion leaves a revision one version on and no edge out of the item; every other row stays; it is refused exactly when an edge ends at the item |
| Rows.RestoreLeaves | apps/api/src/durable-objects/vault.ts:884-905 | a restore leaves what the picked row says, one version on, and reports each refusal exactly in its case |
| Rows.PromotionLeaves | apps/api/src/durable-objects/vault.ts:933-983 | a direct promotion leaves the source's item at the target and one row that tells whether it worked |
| Rows.ApplicationLeaves | apps/api/src/durable-objects/vault.ts:1025-1060 | applying leaves the recorded revision's content with the live source's kind and type, not encrypted, and completes one row |
| VaultStore.VaultDurableObject.CollectPublishTargets | apps/api/src/durable-objects/vault.ts:614-636 | terminates, lists each item once and at most `limit`; untruncated it is exactly the live items that reach the key; it is flagged exactly when there are more, and then some is missing |
| EdgeCache.EdgeKv.WriteThrough | apps/api/src/edge-cache.ts:17-35 | puts the entry of a non-secret item and leaves the store alone for a secret |
| EdgeCache.EdgeKv.PublishTargets | apps/api/src/edge-cache.ts:37-45 | the store afterwards is the old one with every listed non-secret item republished |
| EdgeCache.PublishWithDependents | apps/api/src/routes/workspaces.ts:180-193 | an untruncated publish republishes exactly the item and everything that reaches it |
| EdgeCache.SetRoute | apps/api/src/routes/workspaces.ts:307-351 | a write and its publish together are one step of the run theorem, unless the fan-out is cut; then the item and some of its dependents are republished and the rest of the store stays |
| EdgeCache.DeleteRoute | apps/api/src/routes/workspaces.ts:398-410 | a deletion and its cache removal together are one step of the run theorem |
| EdgeCache.LookRoute | apps/api/src/routes/workspaces.ts:379-394 | reports the published content of an item with references and moves the shared pattern as one step of the run theorem |
| EdgeCache.OnlyLooksMove | apps/api/src/routes/workspaces.ts:379-394 | from position 0, a step leaves the pattern elsewhere exactly when it looks at a document that has references |
| EdgeCache.PublishingResets | apps/api/src/durable-objects/vault.ts:590-636 | a publish puts the position back to 0 exactly when a config or a flag is among what it publishes |
| EdgeCache.EntryFrame | apps/api/src/durable-objects/vault.ts:590-636 | an item's entry can only change when something it reaches changes |
| EdgeCache.EveryRunAgrees | apps/api/src/edge-cache.ts:17-54 | after any run of writes from whatever positions of the shared pattern, none with all its references before the position, each followed by its untruncated publish or removal, the entry of every live non-secret item is its resolved content in the current vault with its type, kind and version |
| EdgeCache.RunsFromEmptyAgree | apps/api/src/edge-cache.ts:17-54 | the same for every run from the empty vault and store |
| EdgeCache.InvariantExactly | apps/api/src/durable-objects/vault.ts:532-587 | over any run of vault operations the invariant holds throughout exactly when no write has all its references before the position |
| EdgeCache.EffectKeepsInvExactly | apps/api/src/durable-objects/vault.ts:532-587 | the same for one operation of any kind |
| Positions.WriteFromPositionExactly | apps/api/src/durable-objects/vault.ts:532-587 | a write from a position has the outcome it has from position 0 exactly when it does not get as far as its content with references that all lie before the position |
| Positions.WriteKeepsGraphExactly | apps/api/src/durable-objects/vault.ts:532-587 | an accepted write keeps edges, targets and acyclicity exactly when its references are not all before the position |
| Positions.PositionExactly | apps/api/src/durable-objects/vault.ts:532-548 | the checks of a write put the position back to 0 exactly when they come to expanding its content |
| Positions.OffsetCountsUnits | packages/refs/src/index.ts:19-36 | positions count UTF-16 code units |
| EdgeCache.ServedContent | apps/api/src/durable-objects/vault.ts:590-607 | what is served is the full expansion, or the raw content for documents and for items whose chain is too long, and nothing else |
| ClosedEntries.EdgeHoldsLastOpen | apps/api/src/edge-cache.ts:17-54 | after those runs a key is on the edge exactly when it is live and has been non-secret since it was created, with its entry at the last moment it was |
| ClosedEntries.SecretKeepsOldEntry | apps/api/src/edge-cache.ts:17-23 | turning an unreferenced open item into a secret is accepted and leaves the entry it had on the edge |
| ClosedEntries.NothingLeftExactly | apps/api/src/edge-cache.ts:17-23 | a write that makes an item secret leaves nothing on the edge exactly when nothing was there before |
| HiddenReferences.LookThenDangle | apps/api/src/durable-objects/vault.ts:532-548 | a serial run in which a document is looked at and a reference to a missing item is then stored, without an edge |
| HiddenReferences.DocumentIsBait | apps/api/src/durable-objects/vault.ts:676-787 | such a document comes about by one accepted write |
| Gaps.InterleavedWritesCloseACycle | apps/api/src/durable-objects/vault.ts:704-731 | two writes validated before either lands are both accepted and together close a cycle; one after the other the second is refused |
| Interleaving.InterleavingExactly | apps/api/src/durable-objects/vault.ts:700-731 | two writes accepted on the same tables leave the reference graph in order together exactly when not each leads to the other's item and neither makes secret what the other names |
| Interleaving.AcyclicTogetherExactly | apps/api/src/durable-objects/vault.ts:567-587 | replacing the edges out of two nodes, each harmless alone, keeps a graph acyclic exactly when not each leads to the other |
| Interleaving.FallingOutIsReachable | apps/api/src/durable-objects/vault.ts:700-731 | two such writes that close a cycle exist in a vault built by accepted writes alone |
| Landing.LandingExactly | apps/api/src/durable-objects/vault.ts:704-854 | two writes or deletions that both check before either lands leave the reference graph in order exactly when they are two writes to one item or that get along, a write that does not name the deleted item, a write without references that its own item's deletion overtakes, a deletion that comes after a write to its item, or two deletions |
| Landing.SameKeySameVersion | apps/api/src/durable-objects/vault.ts:722-845 | two such operations on live items keep versions increasing exactly when the items are two |
| Landing.LandsAtOnce | apps/api/src/durable-objects/vault.ts:676-854 | landing on the tables that were checked is the write or deletion as one step |
| Landing.OvertakingIsReachable | apps/api/src/durable-objects/vault.ts:814-845 | in a vault built by accepted writes alone a deletion overtakes a write that names its item, and one to its item, and both leave the graph out of order |
| Gaps.ChainsOutgrowTheLimit | apps/api/src/durable-objects/vault.ts:526-531 | an accepted write can push an unchanged dependent past the depth limit: it is then published raw and its own content would be refused |
| Gaps.ChainOf | apps/api/src/durable-objects/vault.ts:526-548 | from a new vault, accepted writes alone build chains of every length up to the limit |
| History.SetVersionsExact | apps/api/src/durable-objects/vault.ts:704-731 | a write keeps versions per key increasing exactly when its version is fresh; without a minimum version, exactly when the key is live or new |
| History.VersionsIncreaseAlways | apps/api/src/durable-objects/revision-manager.ts:42-107 | in every run where a deleted key re-enters only by restore, from whatever positions of the pattern, versions per key strictly increase and the published revision is the last one |
| History.RestoreSourceExact | apps/api/src/durable-objects/vault.ts:884-893 | restore reads the deletion revision exactly when no earlier revision of the key ranks with or above it |
| History.DeleteThenRestore | apps/api/src/durable-objects/vault.ts:814-905 | then delete and restore give back kind, content, type and encryption flag at version + 2 with the same graph, exactly when the item is a secret or fits the depth limit |
| History.RunThenDeleteThenRestore | apps/api/src/durable-objects/vault.ts:814-905 | so after every such run none of whose writes has all its references before the position, whatever row the query picks, delete and restore give the item back in this way and keep versions increasing |
| History.RestoreResurrectsFirstLife | apps/api/src/durable-objects/vault.ts:704-731 | otherwise it fails: a deleted key written plainly restarts at version 1, and its next delete and restore bring back the content of its first life |
| History.TwoWritesThenDelete | apps/api/src/durable-objects/vault.ts:704-731 | any new key reaches the state in which that happens |
| Risk.HeuristicRisk | packages/ai/src/risk.ts:34-49 | the imperative heuristic gives the floor verdict |
| Risk.ProductionInWords | packages/ai/src/risk.ts:36-36 | a slug looks like production exactly when it has `prod` in it, in any case |
| Risk.Score | packages/ai/src/risk.ts:73-106 | whatever the model answers or throws, the verdict is not below the floor, production always needs approval, and approval is needed exactly at level high |
| Risk.FloorCoversExactly | packages/ai/src/risk.ts:73-106 | a verdict on one change is an approval for another, whatever the model answers, exactly when the floor of the first covers the floor of the second |
| PromotionWorkflow.AlwaysGood | apps/api/src/workflows/promotion.ts:33-133 | over all interleavings of workflow steps with vault operations, from whatever positions of the pattern, every instance's promotion row says truthfully what happened |
| PromotionWorkflow.ProductionNeedsApproval | apps/api/src/workflows/promotion.ts:55-93 | a promotion into an environment whose slug looks like production is applied only after an approval |
| PromotionWorkflow.AppliedMeetsFloor | apps/api/src/workflows/promotion.ts:55-104 | when the floor of what the scan read covers the floor of what is about to be applied, the change is applied only if its floor asks for no approval or one was given |
| PromotionWorkflow.ChangeInWords | apps/api/src/workflows/promotion.ts:55-66 | what the scan scores: the slug of the target, whether the live source is a secret, and the rollouts in contents that are there and not empty |
| PromotionWorkflow.JumpAppliedUnapproved | apps/api/src/workflows/promotion.ts:41-104 | otherwise it fails: with a config turned into a secret between snapshot and scan, its rollout jump is applied with no decision |
| PromotionWorkflow.RefusedNeverApplied | apps/api/src/workflows/promotion.ts:88-98 | a refused promotion is never applied; an applied one wrote the snapshot into a revision of the target |
| PromotionWorkflow.SnapshotFixedAtBegin | apps/api/src/workflows/promotion.ts:41-52 | the snapshot is the source's content at the first step, whatever happens to the source later |
| PromotionWorkflow.ApplyWritesSnapshot | apps/api/src/workflows/promotion.ts:101-104 | at the apply step the live target holds the snapshot |
| PromotionWorkflow.VerifyExactly | apps/api/src/workflows/promotion.ts:116-125 | verifying ends well and leaves the row completed exactly when the target then holds the snapshot; otherwise instance and row have failed |
| PromotionWorkflow.IntactIsVerified | apps/api/src/workflows/promotion.ts:101-125 | over any interleaving that leaves the target alone between its being applied and verified, the instance ends verified and its row completed |
| Metering.CollectWindowEvents | edge/control-plane/src/metering.ts:89-120 | the day and page loops read exactly the selected objects' events in the window |
| Metering.CollectionExact | edge/control-plane/src/metering.ts:89-120 | given objects listed under the day of their write time and written within the grace of their events, every stored event in the window is returned exactly once |
| ObjectKey.KeyReadsBackExactly | edge/control-plane/src/metering.ts:78-82 | the write time reads back from the name the archive gives an object exactly when it is not before 1970 |
| ObjectKey.ListedUnderItsDayExactly | apps/audit/src/index.ts:10-13 | up to the year 9999 an object comes up under a day's prefix exactly when it was written that day |
| Calendar.DayNameExactly | apps/audit/src/index.ts:11-11 | up to the year 9999 the ISO name of a day determines the day |
| Calendar.DaysCount | apps/audit/src/index.ts:11-11 | every moment of a day of a month is counted to that month and day |
| ObjectKey.FirstName | apps/audit/src/index.ts:10-13 | the name of a batch written at 0 is audit/1970-01-01/0- and its suffix |
| Archive.ListingFindsTheDay | edge/control-plane/src/metering.ts:98-104 | listing a day's prefix and reading the names gives that day's batches with their write times |
| Archive.ArchiveIsCollected | edge/control-plane/src/metering.ts:89-120 | so the scan by name over the archived objects returns exactly the events of the window that were archived within the grace |
| Billing.AggregateUsage | edge/control-plane/src/metering.ts:52-67 | a bucket exists exactly when the window has a unit of its hour, workspace and meter, and holds the number of them, an event with a positive count standing for so many |
| Billing.AggregateSpreadOut | edge/control-plane/src/metering.ts:52-67 | aggregating one event per unit gives the same map |
| Usage.CountIsUnits | edge/control-plane/src/metering.ts:33-61 | a bucket's count is the number of units by index, by an explicit table of meters |
| Usage.TotalIsUnits | edge/control-plane/src/metering.ts:33-61 | an identifier's total is the number of units of its hour and meter whose workspace's organization has the customer |
| Billing.GroupByCustomer | edge/control-plane/src/metering.ts:215-245 | an identifier is billed exactly when its total is positive, with its total |
| Billing.TotalPermutes | edge/control-plane/src/metering.ts:52-67 | totals do not depend on the order of events |
| Billing.ReportsConserveUsage | edge/control-plane/src/metering.ts:215-245 | the reported values add up to the weight of the billable, customer-mapped events |
| Billing.Biller.ReportMeterEvents | edge/control-plane/src/metering.ts:135-160 | the ledger only gains reported values, keeps what it has, and all were accepted exactly when the count says so |
| Billing.Biller.RunMeteringCron | edge/control-plane/src/metering.ts:191-253 | the watermark moves to the window's end exactly when the window is not empty and everything was accepted |
| Billing.RunTotals | edge/control-plane/src/metering.ts:191-245 | a run bills each hour of its window with the hour's whole total, and no other hour |
| Billing.WindowInWords | edge/control-plane/src/metering.ts:191-206 | a window ends at the last whole hour ten minutes ago and begins at the watermark, at most a day before |
| Billing.BilledOnceAndExactly | edge/control-plane/src/metering.ts:191-253 | over any runs with any rejections, lost replies and throws, each (meter, customer, hour) is on the ledger at most once and exactly, the watermark stays hour-aligned and never goes back, and every hour below it that the 24-hour clamp did not skip is fully recorded |
| Billing.BilledUnitForUnit | edge/control-plane/src/metering.ts:191-253 | in the same runs each ledger entry is the number of archived units for its meter, customer and hour |
| Mau.MauBiller.RunMauMetering | edge/control-plane/src/mau.ts:52-90 | a run reports elapsed months in order and stops before the first that is not accepted in full |
| Mau.MonthEventsInWords | edge/control-plane/src/mau.ts:62-80 | an organization is reported for a month exactly when it has users and a customer, under that customer and month |
| Mau.NoMonthSkipped | edge/control-plane/src/mau.ts:52-90 | over any runs with any rejections no calendar month is skipped: everything reported by the months below the watermark is on the ledger, and every entry is one that some month reported |
| Calendar.IndexOfStart | edge/control-plane/src/mau.ts:16-25 | a month's start determines the month, for every month of the Gregorian calendar outside the years 0 to 99, which Date.UTC takes for 1900 to 1999 |
| Mau.ExactUnlessShared | edge/control-plane/src/mau.ts:62-80 | a recorded value is the customer's whole usage exactly when one organization maps to the customer; otherwise it is less |
| Mau.EntryOfItsMonth | edge/control-plane/src/mau.ts:62-80 | an identifier's entry on the ledger is one reported for the month it names |
| C14n.Renderer.InScopeNamespace | packages/sso-saml/src/c14n.ts:93-101 | the walk up the parents finds the nearest binding |
| C14n.Renderer.RenderElement | packages/sso-saml/src/c14n.ts:103-176 | what is pushed is the text of the canonical element tree |
| C14n.Canonicalize | packages/sso-saml/src/c14n.ts:213-217 | the result is the text of the canonical tree |
| C14nReading.CanonicalTextReadsBack | packages/sso-saml/src/c14n.ts:103-217 | a reader of tags, attributes, instructions and entities turns the canonical text into the canonical form, adjacent texts joined, for names and instructions without markup characters |
| C14nReading.TextDeterminesForm | packages/sso-saml/src/c14n.ts:213-217 | two such documents have the same canonical text exactly when they have the same canonical form, texts joined |
| C14nNamespaces.CanonicalFormIsFaithful | packages/sso-saml/src/c14n.ts:103-176 | section 3 of Exclusive XML Canonicalization 1.0: at every output element each visibly utilized prefix the input binds has the same binding from the nearest rendered declaration, a declaration is rendered exactly when the output does not already say it, and attributes are kept and put in UTF-16 order |
| C14nNamespaces.CanonicalIsFaithful | packages/sso-saml/src/c14n.ts:103-210 | the same for any subtree under any output context the scope tracks |
| C14nNamespaces.UtilizedInWords | packages/sso-saml/src/c14n.ts:109-117 | the utilized prefixes are the element's, those of its attributes that are no declarations, and the listed ones |
| C14nNamespaces.InScopeIsNearest | packages/sso-saml/src/c14n.ts:93-101 | a prefix means what the first declaration at the nearest element with one says |
| C14nNamespaces.ContextIndependent | packages/sso-saml/src/c14n.ts:93-176 | moving a subtree under ancestors that bind its utilized prefixes the same way changes nothing |
| C14nInvariance.AttributeOrderIrrelevant | packages/sso-saml/src/c14n.ts:103-176 | permuting attributes with distinct expanded names, namespace declarations included, changes nothing |
| C14nInvariance.CanonicalizationIdempotent | packages/sso-saml/src/c14n.ts:213-217 | for an input whose attributes have the names their prefixes give them, canonicalizing the canonical tree again, its names resolved anew from the rendered declarations, gives the same text |
| C14nOrder.W3cOrderExactly | packages/sso-saml/src/c14n.ts:143-160 | the canonical form is in the order of the W3C recommendation, by code points, exactly when no deciding comparison of two rendered prefixes or two attributes sets a supplementary character against one from U+E000 to U+FFFF |
| C14nOrder.CrossedAttributesAreSwapped | packages/sso-saml/src/c14n.ts:153-160 | with namespaces named U+FB00 and U+10000 the code writes the second first |
| C14nEscaping.TextRoundTrip | packages/sso-saml/src/c14n.ts:74-80 | reading escaped text back gives the text, so distinct texts stay distinct |
| C14nEscaping.AttrRoundTrip | packages/sso-saml/src/c14n.ts:82-90 | the same for attribute values |
| Ordering.SortPermutes | packages/sso-saml/src/c14n.ts:143-160 | with distinct keys the sorted result depends only on the elements |
| Ordering.CodePointOrderExactly | packages/sso-saml/src/c14n.ts:143-160 | sorting by UTF-16 units gives code point order exactly when no two keys are crossed in this way |
| Base32.EncodeBase32 | packages/auth/src/totp.ts:18-32 | section 6 of RFC 4648: the symbols spell the bytes' bits, filled up with fewer than five zeros, although the 32-bit accumulator is never masked |
| Base32.DecodeBase32 | packages/auth/src/totp.ts:34-50 | accepts exactly the cleaned strings over the alphabet, upper-casing included that turns other letters into it, and returns the whole bytes among their bits |
| Base32.SpelledReadsBack | packages/auth/src/totp.ts:18-50 | a string that spells some bytes decodes to those bytes and no others |
| Base32.EncodeThenDecode | packages/auth/src/totp.ts:18-50 | decoding an encoding gives the bytes back, for every byte string |
| Totp.CounterBytes | packages/auth/src/totp.ts:52-66 | the two loops over 32-bit halves fill the buffer with the counter's eight low bytes |
| Totp.CounterBytesExact | packages/auth/src/totp.ts:52-66 | those bytes, big-endian, are the counter modulo 2^64 |
| Totp.HotpExact | packages/auth/src/totp.ts:74-85 | section 5.3 of RFC 4226: exactly `digits` digits, whose value is the four bytes from the offset named by the last one's low nibble, big-endian and without the topmost bit, modulo 10^digits |
| Totp.VerifyTotpWithStep | packages/auth/src/totp.ts:112-132 | returns the greatest matching step in the window, none exactly when no step matches |
| Totp.StepsAcceptedOnce | packages/database/src/queries.ts:370-386 | section 5.2 of RFC 6238: over any series of attempts accepted steps strictly increase, so none is accepted twice |
| Totp.AcceptsExactlyNewer | packages/database/src/queries.ts:370-386 | a step is accepted exactly when it is newer than every step accepted before |
| Staleness.Isolate.Resolve | apps/delivery/src/index.ts:123-136 | answers from an unexpired L1 entry, else from the store, remembering hits and misses |
| Staleness.Isolate.Batch | apps/delivery/src/index.ts:221-231 | resolves the first hundred keys and no others |
| Staleness.EdgeVault.GetRecord | packages/sdk/src/index.ts:154-178 | a fresh client entry is returned as it is; otherwise the route's answer is returned and remembered, which is a miss for a key whose path is a dot segment or empty |
| Staleness.EdgeVault.Batch | packages/sdk/src/index.ts:115-127 | the client remembers the batch answer for every key; a key that was not answered is null, or a record with the key alone if every object inherits its name |
| Staleness.AllAnsweredExactly | packages/sdk/src/index.ts:115-127 | every key asked for is among the records returned exactly when `__proto__` is not asked for, or is missing and asked for twice |
| Staleness.ReadsAreBounded | packages/sdk/src/index.ts:154-178 | for every interleaving of store writes, reads, batches, clears and recycled isolates, a record or a miss returned at time t was shown by the store's value at some moment in the last client TTL + L1 TTL exactly when its entry or request did not bypass the store (a key past a batch's limit, a dot segment), or the name is not an inherited one and the store had nothing to show at such a moment |
| Staleness.ReadsWereHeld | packages/sdk/src/index.ts:154-178 | in such a run a record found was held by the store within the bound, as a flag on the flag route, and a miss means that it held nothing there or, on that route, no flag |
| Staleness.ColdReadExactly | apps/delivery/src/index.ts:152-165 | through empty caches a read gives what was last written, on the flag route exactly if that is a flag |
| Staleness.ClientCacheLasts | packages/sdk/src/index.ts:164-178 | a client answers from its cache through its lifetime and no longer, and not at all without one |
| Staleness.L1LastsFifteenSeconds | apps/delivery/src/index.ts:26-41 | an isolate answers from its cache for fifteen seconds and no longer |
| Staleness.BatchesAreBounded | packages/sdk/src/index.ts:115-127 | in all those runs a batch answer for a key within the limit is at most one L1 TTL old |
| Staleness.BatchAnswersFirstHundred | apps/delivery/src/index.ts:221-231 | a batch answers a key from the store exactly when it is among the first hundred; any other is reported and cached as missing, or as a record with the key alone if the name is inherited |
| Staleness.LongBatchHidesAStoredKey | apps/delivery/src/index.ts:221-231 | after a batch of 101 distinct keys a read says that the last is missing, although the store held it all the time |
| Staleness.LongBatchInventsARecord | packages/sdk/src/index.ts:120-125 | after a batch of 101 keys that ends in `constructor` a read returns a record, although nothing was ever stored |
| Staleness.DotSegmentIsNeverFound | packages/sdk/src/index.ts:150-162 | a read of the key `.` or `..` says that it is missing, although the store held it all the time |
| Cidr.ParseV6 | packages/edge-protocol/src/index.ts:50-87 | the parser with its loops equals the specification |
| Cidr.NumeralIsPlaceValue | packages/edge-protocol/src/index.ts:37-87 | digit strings are read by place value, digits being places in the two lists of sixteen |
| Cidr.OctetExactly | packages/edge-protocol/src/index.ts:37-48 | an octet is one to three decimal digits that make at most 255 |
| Cidr.GroupExactly | packages/edge-protocol/src/index.ts:50-87 | a group is one to four hexadecimal digits |
| Cidr.Ipv4Exactly | packages/edge-protocol/src/index.ts:37-48 | a dotted address is accepted exactly when it is four decimal octets, and read as their number |
| Cidr.FullFormReadsBack | packages/edge-protocol/src/index.ts:50-87 | section 2.2 of RFC 4291: eight groups, the last two possibly dotted, are read as the number they stand for |
| Cidr.CompressedFormReadsBack | packages/edge-protocol/src/index.ts:50-87 | with `::` for one or more zero groups, the same number |
| Cidr.Ipv6Exactly | packages/edge-protocol/src/index.ts:50-87 | an IPv6 text is accepted exactly when it is such a full or compressed form, and read as its number |
| Cidr.CompressionKeepsTheAddress | packages/edge-protocol/src/index.ts:50-87 | compressing any zero run does not change the address |
| Cidr.IpMatchesCidrs | packages/edge-protocol/src/index.ts:113-127 | true exactly when the address parses and some entry matches it |
| Cidr.ValidCidrExactly | packages/edge-protocol/src/index.ts:99-107 | a valid CIDR is an address, or an address, a slash and up to three decimal digits that make at most its number of bits |
| Cidr.MatchesExactly | packages/edge-protocol/src/index.ts:99-127 | a valid CIDR matches exactly the addresses of its family that share its block [q*2^s, (q+1)*2^s) |
| Cidr.ShorterPrefixMatchesMore | packages/edge-protocol/src/index.ts:99-127 | of two valid CIDRs with the same address the one with the shorter prefix matches whatever the other does |
| Diff.GenerateDiff | packages/diff/src/index.ts:25-34 | null on either side is one entry for the whole value; otherwise the recursive diff |
| Diff.DeepDiff | packages/diff/src/index.ts:51-65 | the entries of the recursive specification under the given path |
| Diff.DiffRebuildsExactly | packages/diff/src/index.ts:25-95 | applying the diff to the old value gives the new one exactly when no position holds an array on one side and an object on the other and no object drops an inherited field name |
| Diff.EmptyMeansEqualExactly | packages/diff/src/index.ts:25-34 | equal values have no diff, and no diff means equal values exactly under the same condition |
| Diff.EntriesReport | packages/diff/src/index.ts:25-95 | each entry has the old value and the new one at its path, and they differ: what is added was not there, what is removed is gone |
| Diff.LengthIsInherited | packages/diff/src/index.ts:80-95 | an array against an object with a `length` field reports the array's length as the old value |
| Diff.ArrayForObjectIsInvisible | packages/diff/src/index.ts:61-65 | outside it the diff can miss a change: `[x]` against `{"0": x}` gives no entries |
| Diff.DiffPathsAreDisjoint | packages/diff/src/index.ts:51-95 | no entry's path lies at or below another's, whatever the values |
| Anomaly.AnomalyDetector.RecordAnomalySignal | apps/api/src/durable-objects/vault.ts:290-331 | stores the signal, prunes, and reports the alerts whose cooldowns it claimed |
| Anomaly.AnomalyDetector.ClaimAnomalyCooldown | apps/api/src/durable-objects/vault.ts:334-348 | claims exactly when no claim is in force |
| Anomaly.PruningLosesNothing | apps/api/src/durable-objects/vault.ts:262-325 | with an ordered clock, counting over the pruned table finds what counting over the full history finds |
| Anomaly.RunMatchesHistory | apps/api/src/durable-objects/vault.ts:290-348 | over any run the detector makes exactly the claims of one that forgets nothing |
| Anomaly.AlertsExactly | apps/api/src/durable-objects/vault.ts:290-331 | a call reports an alert exactly when the full history exceeds one of its thresholds and that threshold's cooldown was not claimed within the last hour |
| Anomaly.DueInWords | apps/api/src/durable-objects/vault.ts:262-331 | what is exceeded is more than ten reveals by the actor in five minutes, more than twenty-five by anyone in fifteen, or an export of more than a hundred |
| Anomaly.CountIsCalls | apps/api/src/durable-objects/vault.ts:312-322 | a count over the history is a number of calls, by the actor when one is named |
| Anomaly.ClaimsAreAnHourApart | apps/api/src/durable-objects/vault.ts:334-348 | two claims of one cooldown key are at least one hour apart |
| Members.Directory.Update | packages/database/src/queries.ts:634-657 | changes one role, or refuses an unknown member or demoting an owner when at most one active owner is left |
| Members.Directory.Remove | packages/database/src/queries.ts:660-681 | deletes one member, or refuses an unknown member or an owner when at most one active owner is left |
| Members.Directory.SetActive | packages/database/src/queries.ts:1003-1031 | suspends or restores one member, or refuses suspending an owner when at most one active owner is left |
| Members.Directory.Invite | packages/database/src/queries.ts:711-768 | refreshes the pending invitation of the address if there is one, else adds one |
| Members.Directory.Accept | packages/database/src/queries.ts:830-877 | reports each refusal in the order of the checks, else adds the member if missing and marks the invitation accepted |
| Members.RunKeepsInv | packages/database/src/queries.ts:572-1031 | every run keeps at least one active owner in every organization and at most one pending invitation per organization and address |
| Members.AcceptedAtMostOnce | packages/database/src/queries.ts:830-897 | over any run an invitation is accepted at most once |
| Members.InviteThenAccept | packages/database/src/queries.ts:711-877 | an invited address that accepts within a week makes its user an active member with the role of the latest invitation, or leaves an existing member as is; nobody else changes |
| Members.StrangersAndLatecomersRefused | packages/database/src/queries.ts:843-858 | with another address or later the same link is refused for that reason and changes nothing |
| Members.LastOwnerStays | packages/database/src/queries.ts:634-681 | an active owner is refused removal and demotion exactly when there is no other |
| Members.SuspendedOrRestored | packages/database/src/queries.ts:1003-1031 | a member is suspended unless the last active owner, restored if suspended, and left alone otherwise |
| Members.RefusalNeededExactly | packages/database/src/queries.ts:660-681 | the last-owner refusal prevents losing the last active owner exactly when the row is active; a deactivated owner is refused without need |
| Members.DemotionRefusalNeededExactly | packages/database/src/queries.ts:634-657 | the same for demoting |

## Left out

- HTTP routes, authentication, validation schemas, the console, the CLI, the WebSocket and agent code: plumbing around the modelled operations.
- Cryptography, hashing, the SQL, KV, R2 and Workflows engines and the billing provider: arbitrary values, tables, maps and accept-or-reject steps.
- Users, activity log, notifications and broadcasts of the vault: written beside the modelled rows, read by none of them.
- Publishes that overtake each other, and fan-outs cut at the limit: the cache theorem takes a write and its untruncated publish as one step.
- Workers that come and go: every one has a pattern of its own, at position 0 to begin with; a run here is on one worker.
- Document blocks and exports (apps/api/src/durable-objects/vault.ts:645-673): reads that start from the shared position and leave it alone, or expand and put it back to 0.
- PromotionWorkflow.ProductionNeedsApproval: environment identifiers are fresh when drawn; `PromotionWorkflow.ReusedIdentifierSkipsTheGate` shows what a reused one would do.
- EdgeCache.SetRoute: leaves open which dependents a truncated publish reaches, because that depends on row order.
- PromotionWorkflow.AlwaysGood: does not model the step that publishes to the edge store; that step changes neither the vault nor the instance beyond its phase.
- Retries inside a workflow step: a step that fails for good leaves its instance stuck.
- A first metering run before any watermark is stored: its failed window is not replayed, so the run theorem starts at a stored watermark.
- Billing.BilledOnceAndExactly: assumes a fixed roster and audit objects written within the ten-minute grace of their events, as the code's own comment does.
- Metering.CollectWindowEvents: works on batches with a day and a write time, which `Archive` shows to be what listing and reading the names gives; what JavaScript's Number makes of a name that is not one of the archive's is left open.
- C14nInvariance.CanonicalizationIdempotent: the reread tree is given by a function that resolves names from the rendered declarations; parsing the text into tags is not modelled.
- The `#default` token of a prefix list and undeclared `xml:` prefixes: the code gives them no special treatment and neither does the model.
- C14nEscaping.AttrRoundTrip: reads the entities the escaper writes; other entities are not modelled.
- Totp.VerifyTotpWithStep: steps before zero take part like any other, as in the code; the constant running time of the comparison is not modelled.
- Staleness.ReadsAreBounded: fetches take no time and the clock never goes back.
- Rendered pages, domain pins and the export route of the delivery worker: the same cache pattern again, or no cache.
- Cidr.IpMatchesCidrs: what JavaScript's Number makes of a prefix that is not one to three digits is arbitrary; CIDRs that pass the validity check have no such prefix.
- Cidr.Ipv6Exactly: includes a dotted IPv4 address at the end of the part before `::`, which the code accepts although RFC 4291 has no such form.
- Diff.DiffRebuildsExactly: values are JSON without a `__proto__` key; `undefined` and shared references between the two values are not modelled.
- Calendar.IndexOfStart: years 0 to 99, which `Date.UTC` takes for 1900 to 1999, are months like any other here; no watermark is in them.
- Members.RunKeepsInv: members provisioned through single sign-on, deleted users and deleted organizations are not modelled.
- Config-format parsers, credential redaction, embeddings, share links, recovery codes and rate limits: would only add easy members.
