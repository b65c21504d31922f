# Verified model of the vault, its retirement outbox and their neighbours

A Dafny 4.11 model of the parts of the system where a mistake costs data: a content-addressed store with a
concurrent garbage collector, the content-defined chunker under it, the outbox by which the API service tells the store
what is no longer needed, the directory closure table, a rate limiter and an incremental event-stream parser.
`dafny verify dfyconfig.toml` checks everything.

## How the files fit together

- `Words`, `FastCdc`: 64-bit words with wrap-around, the streaming chunker and the declarative chunking it refines.
- `Vault`: the store's state and the atomic changes to it. `VaultMachine`: uploads, retirements, crashes and sweeps
  interleaved as small steps, and the invariant. `VaultCounts`, `VaultSweep`, `Uploads`, `Objects`: reference counts,
  completeness of sweeps, what an upload adds, reading back. `TwoStores`: the same with a collector on a Store of its own.
- `Store`: the class with the store's own loops, faults and early exits, proved against `Vault`. `RoundTrip`: an upload
  and then a read, over a store in any condition.
- `Metadata`, `Outbox`, `Repository`: file rows, outbox rows, the order and the holding time of claims, and the
  repository and worker calls over them.
- `Retirement`: uploaders, deleters and one worker against database and store, as small steps; `RetirementRuns`: concrete
  runs of it. `Workers`, `WorkerRuns`: several workers, uploaders that give up, calls that land late.
  `Tended`: which steps leave a manifest nobody will retire. `Whole`: all of it together, with a collector on its own Store.
  `Locks`: permanent delete statement by statement under the advisory lock. `LockOrder`: several locks and colliding keys.
- `Forest`, `Directory`, `Directories`, `DirectoryRuns`, `DirectoryRules`, `Trash`, `Breadcrumbs`, `ClientTree`: the
  closure table against a plain parent map, the repository's transactions, whole runs, two rules restores can break, the
  trash, the two breadcrumbs, and the list of directories the client has fetched.
- `RateLimit`, `Sse`: the token bucket with eviction; the frame parser and the frames the server writes.

## Hypotheses, and what happens without them

1. **One Store.** The lifecycle lock and the set of active uploads are fields of `Store`, so `VaultMachine` speaks of
   sweeps and uploads on one `Store`. The program builds two (`cmd/vault-core/main.go:32` for the sweeper,
   `internal/uds/server.go:41` for the handler). `TwoStores` models that program, with scan, walk and each deletion as a
   step of its own: it is safe exactly when each deletion hits a chunk nobody needs (`SafeExactlyWhenHarmless`), in
   particular when sweeps and uploads never overlap (`QuietSweepsAreSafe`), and two runs lose a chunk.
   `Whole.CommittedFilesKeepTheirBytes` is the theorem about committed files for that program, under this condition.
2. **Retain in grace.** `updateManifestLifecycle` does not look whether the chunks still exist.
   `VaultSweep.RetainSafeExactlyWhenStored` is the exact condition, `VaultSweep.LateRetainLosesAChunk` a run that breaks
   it. In `Retirement` this hypothesis is discharged: it follows when, at the time of a sweep, every request, uploader or
   worker that has a retired manifest on its list has had it there for less than the grace (`InTime`), and no weaker
   timing keeps the invariant (`Retirement.SoundExactlyWhenTimely`).
3. **A collision-free hash and a fixed chunking configuration** (`Vault.Sound`). The hash is an arbitrary function; the
   gear table is an arbitrary table of 256 words. Only theorems that name `Sound` need this.
4. **One worker, uploaders that finish, and calls that end with their callers.** `manifest_retirement_worker.go:26-28`
   says several workers are safe. They are not (`WorkerRuns.TwoWorkersForgetAFile`). The program starts one
   (`app/bootstrap.go:128-133`), and the coverage theorem of `Retirement` is about one whose Vault calls take effect at once
   or never. A call can outlive its caller, since `updateManifestLifecycle` looks at the context only before it waits for
   the lock; then one worker is not enough either (`WorkerRuns.LateRetireForgetsAFile`), and neither is an uploader that
   gives up before its Retain (`WorkerRuns.GivingUpForgetsAFile`). `Workers.CoveredExactlyWhenFresh` drops all three
   hypotheses and says exactly which steps break coverage; `Workers.ExclusiveWorkersKeepCover` is the safe case, and
   `Whole` carries the theorem about committed files over to such crews. A claim keeps an item from other workers for a
   minute only, and a requeue ends that at once (`Outbox.ClaimIsUndoneExactlyByAsking`).

## Results that are not what one might expect

- An upload never looks into a chunk file it finds. Over a store with one corrupt file an upload of that chunk succeeds
  and its object never opens; `RoundTrip.UploadThenOpen` says exactly when it does.
- Sorted lock order does not exclude deadlock when lock hashes collide; `LockOrder.DeadlockExactlyWhenTangled` says
  exactly which hashes admit one.
- `RestoreSubtree` can be turned down for good by the unique index on active file names: trash a file, reuse its name,
  trash the directory (`Trash.ReusedNameBlocksRestore`). So "restoring all trash roots empties the trash" holds exactly
  when the names under them do not collide (`Trash.RestoringEveryTrashRoot`).
- A limiter with a limit of 0 or less would admit a client again after each eviction
  (`RateLimit.EvictionIsUnobservableExactlyWithALimit`). The program never builds one: `config.go:110` of the API service
  refuses a RATE_LIMIT_PER_MINUTE that is not positive, and both callers (`transport/http/router.go:25` and `:30`) pass
  that value.
- A manifest can be stranded: active, with no row, no request and nobody at work on it, even without any failure
  (`RetirementRuns.LateRetainStrands`). `Tended.TendedExactlyWhenCareful` says exactly which runs avoid it,
  `Tended.CrewTendsExactlyWhenCareful` with any number of workers.
- The server's and the client's breadcrumb differ exactly when an ancestor is deleted, which a restore below a deleted
  directory produces (`DirectoryRuns.ActiveBelowDeleted`). The server then leaves the deleted ones out; the client never
  fetches them and shows nothing (`Breadcrumbs.ClientShowsAllOrNothing`, `ClientTree.ShowBreadcrumb`). A restore can also
  leave two active siblings of one name (`DirectoryRuns.SiblingsMayShareAName`). No other operation breaks either rule, and
  `DirectoryRules.RuleKeptExactly` says exactly which restores do.

## Model

| member | source | states |
|---|---|---|
| `FastCdc.Split` | environment-b/vault-core/internal/fastcdc/chunker.go:35-109 | Over any script of partial reads, read errors and cancellations: a bad configuration emits nothing; otherwise what was emitted is a prefix of the chunking of the delivered bytes, numbered 0, 1, …, and all of it when the call succeeds, so the output does not depend on how the reads were cut |
| `FastCdc.ChunksSpellTheStream` | environment-b/vault-core/internal/fastcdc/chunker.go:47-66 | What a whole stream hands on carries consecutive indexes, true non-zero sizes, and all the bytes in order |
| `FastCdc.DeliveredUpToTheFirstError` | environment-b/vault-core/internal/fastcdc/chunker.go:72-99 | Bytes that come together with the first error count, nothing after it does, and it fails the call if and only if it is not the end of the stream |
| `FastCdc.CutsExactly` | environment-b/vault-core/internal/fastcdc/chunker.go:77-139 | Which bytes cut: a chunk is closed if and only if it has reached MaxSize, or has reached MinSize and the unwrapped rolling sum of its bytes is divisible by 2^(k+1), from AvgSize on by 2^k, where 2^k is the power of two at or below AvgSize and at least 16 |
| `FastCdc.Consume` | environment-b/vault-core/internal/fastcdc/chunker.go:74-106 | One buffer of bytes: the buffered, wrapping, per-byte loop stays in step with the declarative chunking from any intermediate state, cancellation included |
| `FastCdc.SplitIsChunking` | environment-b/vault-core/internal/fastcdc/chunker.go:47-106 | The chunks concatenate back to the input and every cut stands at the first position where the cut test holds |
| `FastCdc.ChunkingIsSplit` | environment-b/vault-core/internal/fastcdc/chunker.go:47-106 | There is only one such chunking of a byte string |
| `FastCdc.SplitCharacterised` | environment-b/vault-core/internal/fastcdc/chunker.go:47-106 | A list of chunks is the result if and only if it is a chunking and concatenates to the input |
| `FastCdc.SplitSizes` | environment-b/vault-core/internal/fastcdc/chunker.go:111-125 | No chunk is longer than MaxSize, all but the last are at least MinSize, none is empty |
| `FastCdc.Resynchronise` | environment-b/vault-core/internal/fastcdc/chunker.go:47-106 | A position is a cut point of p followed by s if and only if the chunks of the whole are the chunks of p followed by the chunks of s |
| `FastCdc.SharedSuffixSharesChunks` | environment-b/vault-core/internal/fastcdc/chunker.go:47-106 | Two files that cut at the start of a common suffix share every chunk of it |
| `FastCdc.AppendKeepsClosedChunks` | environment-b/vault-core/internal/fastcdc/chunker.go:74-106 | Appending bytes to a file leaves every chunk but its last one in place |
| `FastCdc.FingerprintWindow` | environment-b/vault-core/internal/fastcdc/chunker.go:77-79 | Modulo 2^k the wrapping 64-bit fingerprint is a function of the last k bytes only |
| `FastCdc.MaskBitsFit` | environment-b/vault-core/internal/fastcdc/chunker.go:127-139 | The masks' bit counts stay within the word for every configuration that fits a 63-bit int |
| `FastCdc.CutDependsOnWindow` | environment-b/vault-core/internal/fastcdc/chunker.go:111-139 | Two chunks in the same size class that end in the same k bytes, k the mask's bit count, get the same cut decision |
| `VaultMachine.ReactivationFindsItsChunks` | environment-b/vault-core/internal/cas/store.go:634-654 | When an identical upload meets a stored manifest, the manifest's old chunk list is exactly the list this upload touched, and all of it is stored, even if a sweep had deleted it before |
| `VaultMachine.TouchedAll` | environment-b/vault-core/internal/cas/store.go:89-113 | An upload with nothing left to touch has touched the chunk list of its content, and each of these chunks has a record and a file |
| `VaultMachine.CommitSucceeds` | environment-b/vault-core/internal/cas/store.go:605-699 | The commit of a fully touched non-empty upload never fails on a missing chunk, whatever was swept meanwhile |
| `VaultMachine.DeletionSparesKept` | environment-b/vault-core/internal/cas/garbage_collector.go:114-179 | No deletion a sweep may make, complete or broken off at any point, takes a chunk of a manifest that is active or retired no earlier than the cutoff |
| `VaultMachine.SweepKeepsInv` | environment-b/vault-core/internal/cas/garbage_collector.go:94-179 | A sweep stopped after any subset of its deletions (file gone and record still there included) keeps the invariant |
| `VaultMachine.StepKeepsInv` | environment-b/vault-core/internal/cas/store.go:498-699 | Every step of every upload, crash, retirement, in-grace retain and sweep keeps the invariant |
| `VaultMachine.EveryRunIsSafe` | environment-b/vault-core/internal/cas/garbage_collector.go:94-179 | In every interleaved run of one Store, each chunk of a manifest that is active or retired no earlier than the largest cutoff so far, and each chunk an upload has touched, has a record and a file with the right bytes; every manifest lists the chunks of its content |
| `VaultCounts.CountsInEveryRun` | environment-b/vault-core/internal/cas/garbage_collector.go:134-139 | In every run a reference count lies between 0 and the occurrences of the chunk over all stored manifests, and equals them until the chunk's record is first swept; the retained mark says whether it is positive |
| `VaultCounts.PositiveCountHasManifest` | environment-b/vault-core/internal/cas/garbage_collector.go:134-139 | A record with a positive count is listed by some stored manifest, so the guarding branch is never taken |
| `VaultSweep.GarbageInEveryRun` | environment-b/vault-core/internal/cas/garbage_collector.go:114-143 | In every run the sweep's candidates are exactly the records in no active manifest, in no active upload, past every retirement, and, when in no manifest at all, created before the cutoff; the count test never matters |
| `VaultSweep.SweepLeavesExactly` | environment-b/vault-core/internal/cas/garbage_collector.go:94-179 | What an error-free sweep leaves, in every run: a record if and only if a manifest active or retired since the cutoff lists it, an upload uses it, or no manifest lists it and it was made at the cutoff or later; a file if and only if its record stays, or it has none and is listed or used in the same way or was written at the cutoff or later |
| `VaultSweep.StraysGoExactly` | environment-b/vault-core/internal/cas/garbage_collector.go:285-327 | Without a hypothesis on runs: the files without a record that go are exactly the unlisted, unused ones written before the cutoff |
| `VaultSweep.NewChunkGoesExactlyLater` | environment-b/vault-core/internal/cas/store.go:516-580 | The chunk a failed upload leaves behind is a candidate if and only if the cutoff is after the time of the upload |
| `VaultSweep.NewFileGoesExactlyLater` | environment-b/vault-core/internal/cas/store.go:846-899 | The same for a file whose record was never written |
| `VaultSweep.SweepMakesNoGarbage` | environment-b/vault-core/internal/cas/garbage_collector.go:114-176 | A sweep never turns a chunk it leaves alone into a candidate |
| `VaultSweep.SecondSweepIsIdle` | environment-b/vault-core/internal/cas/garbage_collector.go:94-179 | After a sweep without errors a second one with the same cutoff may delete nothing |
| `VaultSweep.TouchRestoresSweptFile` | environment-b/vault-core/internal/cas/store.go:516-530 | An upload that found a record whose file is gone writes the file again, with the right bytes, before it marks the chunk |
| `VaultSweep.RetainSafeExactlyWhenStored` | environment-b/vault-core/internal/cas/store.go:255-310 | Clearing Retired keeps the safety property if and only if the manifest's chunks are still stored; the call itself does not look |
| `VaultSweep.LateRetainLosesAChunk` | environment-b/vault-core/internal/cas/store.go:255-310 | A run in which a retain after the grace succeeds and leaves an active manifest without its chunk |
| `TwoStores.DeletionKeepsInvExactly` | environment-b/vault-core/internal/cas/garbage_collector.go:114-179 | Whatever files and records disappear at whatever moment, the safety invariant survives if and only if none of them is used by a kept manifest, marked by an upload, or just seen or written inside touchChunk |
| `TwoStores.ForeignSweepSafeExactly` | environment-b/vault-core/cmd/vault-core/main.go:32-37 | A sweep by a Store of its own, which sees no upload of the serving Store, is safe if and only if it takes no marked chunk, no record an upload has just seen and no file it has just seen or written |
| `TwoStores.SafeExactlyWhenHarmless` | environment-b/vault-core/internal/cas/store.go:28-37 | The program as built, with scan, walk and each single deletion interleaving freely with the serving Store's steps: every state of a run is safe if and only if each deletion of the run hits a chunk nobody needs |
| `TwoStores.QuietSweepsAreSafe` | environment-b/vault-core/cmd/vault-core/main.go:62-72 | Two Stores are safe as long as the collector scans only while no upload is in flight and nothing else happens until it is done |
| `TwoStores.YoungFilesAreNoStrays` | environment-b/vault-core/internal/cas/garbage_collector.go:319-325 | In every interleaving of the two Stores a file removed for want of a record was written before the cutoff, so one that an upload inside touchChunk wrote since then stays |
| `TwoStores.WalkListsExactly` | environment-b/vault-core/internal/cas/garbage_collector.go:285-327 | The walk lists a file if and only if it is older than the cutoff and the scan saw no record and no manifest active or retired since the cutoff for it |
| `TwoStores.SecondLookSpares` | environment-b/vault-core/internal/cas/garbage_collector.go:338-373 | The second look at a record, in the transaction that deletes it, spares it if and only if it has come into use or was made since the cutoff |
| `TwoStores.TwoStoresLoseAChunk` | environment-b/vault-core/internal/uds/server.go:40-46 | A run of that program: the collector's active set is empty, a marked chunk goes, and the upload still commits an active manifest without it |
| `TwoStores.SweepInsideTouchLosesAChunk` | environment-b/vault-core/internal/cas/store.go:498-530 | A run in which the sweep falls inside touchChunk, when nothing at all is marked, so that sharing the active set without the lock would not help |
| `Uploads.TouchAllAdds` | environment-b/vault-core/internal/cas/store.go:498-580 | Touching chunks one after the other adds exactly their hashes to records, files and the upload's active set and changes nothing else |
| `Uploads.NewChunksAreNew` | environment-b/vault-core/internal/cas/store.go:498-580 | Records and files that touching adds have the bytes, size and time of their chunk, no references, and are not marked as retained |
| `Uploads.SharedSuffixCreatesNoRecords` | environment-b/vault-core/internal/cas/store.go:89-113 | Uploading a file that cuts at the start of a suffix already stored creates no record for that suffix |
| `Objects.StoredContentComesBack` | environment-b/vault-core/internal/cas/store.go:344-450 | With intact files the stored chunk list of a content assembles to that content and passes every check |
| `Objects.CleanMeansOriginal` | environment-b/vault-core/internal/cas/store.go:344-450 | Over an arbitrarily corrupted file map, a read that ends cleanly has returned the original bytes |
| `Objects.KeptObjectsReadBack` | environment-b/vault-core/internal/cas/store.go:312-450 | In every run each kept manifest reads back as exactly the content that was uploaded, with its length |
| `Store.Store.RegisterActiveUpload` | environment-b/vault-core/internal/cas/garbage_collector.go:34-46 | The upload gets an empty set of active chunks; nothing else changes |
| `Store.Store.UnregisterActiveUpload` | environment-b/vault-core/internal/cas/garbage_collector.go:48-60 | The upload's set is gone; nothing else changes |
| `Store.Store.MarkActiveUploadChunk` | environment-b/vault-core/internal/cas/garbage_collector.go:62-75 | The hash joins the set of a registered upload; an unknown upload changes nothing |
| `Store.Store.SnapshotActiveChunkHashes` | environment-b/vault-core/internal/cas/garbage_collector.go:77-92 | The loops collect exactly the hashes some active upload has marked |
| `Store.Store.WriteChunkIfMissing` | environment-b/vault-core/internal/cas/store.go:846-899 | An existing file is left alone, a missing one is written |
| `Store.Store.TouchChunk` | environment-b/vault-core/internal/cas/store.go:498-580 | Success: file present, record present, hash marked, and created tells whether the record is new; failure: at most the file was added |
| `Store.Store.TouchChunks` | environment-b/vault-core/internal/cas/store.go:89-113 | The loop's hash list, byte count and count of new chunks are those of the chunks' contents; a failure leaves manifests and other uploads untouched |
| `Store.Store.StreamChunks` | environment-b/vault-core/internal/cas/store.go:73-117 | With the splitter in front: hashes and bytes of the whole delivered stream, independent of the reads |
| `Store.Store.CommitManifestAndChunkRefs` | environment-b/vault-core/internal/cas/store.go:605-699 | All or nothing: the whole new state of manifests and counts, or the old state; it fails on a bad manifest, a missing record, or a transaction turned down |
| `Store.Store.UpdateManifestLifecycle` | environment-b/vault-core/internal/cas/store.go:255-310 | Sets or clears retirement of a valid manifest, keeps the first retirement time, fails on a missing or broken one or a transaction turned down |
| `Vault.RetirementIsUndone` | environment-b/vault-core/internal/cas/store.go:239-310 | Retiring notes the time of the first call only; a retain or an upload of the same content gives back the very state from before |
| `Vault.OneChangedFieldIsNoticed` | environment-b/vault-core/internal/cas/store.go:735-776 | Any one field of a stored manifest changed to a value that does not fit the others makes it unreadable, and only then |
| `Store.Store.ProcessUpload` | environment-b/vault-core/internal/cas/store.go:50-162 | Success: the manifest for the delivered bytes is stored and active with exact chunk numbers; failure: nothing but added chunks, except that a failing last write of the session leaves the complete upload behind; the upload is unregistered either way |
| `RoundTrip.UploadThenOpen` | environment-b/vault-core/internal/cas/store.go:50-162 | After a successful upload the manifest is active and all its chunk files are there; the manifest announces the length of the delivered bytes and keeps the time of its first commit, and the object opens to them if and only if no chunk of it was already stored with wrong bytes. Assumed of the database: a manifest already on file under this hash is one of this content (chunks, hash, length), as in every run |
| `RoundTrip.UploadReport` | environment-b/vault-core/internal/cas/store.go:127-159 | The report of an upload: the bytes delivered, the chunks, how many of them no record knew before, and the rest as reused |
| `RoundTrip.UploadAndOpen` | environment-b/vault-core/internal/cas/store.go:50-162 | The upload and then the read of what it reports, as one method: after a successful upload the read ends cleanly if and only if no read breaks off and no chunk was stored with wrong bytes before, and then gives the uploaded bytes and their length |
| `RoundTrip.CorruptChunkSurvivesUpload` | environment-b/vault-core/internal/cas/store.go:846-899 | Over one file with wrong bytes the upload succeeds, keeps the file, and leaves an active object that never passes its checks |
| `Store.Store.OpenObject` | environment-b/vault-core/internal/cas/store.go:312-450 | With reads that may break off anywhere: strict mode succeeds if and only if every chunk is readable and chunks and whole hash correctly, and then returns the content; stream mode ends cleanly under the same condition |
| `Store.Store.CopyChunks` | environment-b/vault-core/internal/cas/store.go:344-450 | What goes out is a prefix of the chunks in order, of which all but the last one touched were verified; the copy ends cleanly if and only if all is readable and intact |
| `Store.NothingAfterAWrongChunk` | environment-b/vault-core/internal/cas/store.go:344-450 | Nothing is sent after a chunk whose file is not what its name says |
| `Store.Store.ScanManifests` | environment-b/vault-core/internal/cas/garbage_collector.go:195-235 | The loop finds exactly the hashes of active manifests and, for retired ones, the latest retirement; it fails on an unreadable manifest or a cancelled context, and on nothing else |
| `Store.Store.ScanRecords` | environment-b/vault-core/internal/cas/garbage_collector.go:237-270 | Succeeds only if every record is readable with a non-negative count, and then always unless cancelled |
| `Store.Store.ScanFiles` | environment-b/vault-core/internal/cas/garbage_collector.go:285-327 | What the walk finds is stray (no record, not referenced, not active, old enough, past every retirement); it finds all strays unless it fails, is cancelled, or ends early on a file that has just vanished, which is a success |
| `Store.Store.ScanGarbageCollection` | environment-b/vault-core/internal/cas/garbage_collector.go:188-336 | Success means readable manifests and records and exact referenced, retired and active hashes, and exactly the strays unless a vanished file cut the walk short; without trouble it succeeds on every readable store |
| `Store.Store.DeleteChunkMetadata` | environment-b/vault-core/internal/cas/garbage_collector.go:338-373 | A record goes if and only if it is absent already, its manifests are retired, or it is unreferenced and old |
| `Store.Store.SweepRecords` | environment-b/vault-core/internal/cas/garbage_collector.go:114-165 | Files first, records second, one by one, with failures and cancellation anywhere; when no error is reported every candidate was deleted, so the re-check refused none |
| `Store.Store.SweepStrays` | environment-b/vault-core/internal/cas/garbage_collector.go:167-178 | Deletes a subset of the strays, and all of them when no error is reported |
| `Store.Store.CollectGarbage` | environment-b/vault-core/internal/cas/garbage_collector.go:94-179 | With failing deletions, a failing walk and a context cancelled at any look: what it deleted is always permitted; when it reports no error every candidate record and its file are gone, and every stray too unless a vanished file cut the walk short; without trouble it reports none |
| `Retirement.RowsChangeExactly` | environment-a/api-service/internal/repository/file_repository.go:65-142 | Exactly which steps of the machine make a row pending, commit it, trash it or end it |
| `Retirement.RequestsChangeExactly` | environment-a/api-service/internal/repository/manifest_retirement_repository.go:19-232 | Exactly which steps make a request pending (a lost last reference, a requeue, a noted failure), and that only a completion ends it |
| `Retirement.StepKeepsCover` | environment-a/api-service/internal/service/manifest_retirement_worker.go:60-100 | Every step of any uploader, deleter, janitor, worker (crash and failure included) and the Vault keeps: a retired manifest with a committed row has a pending request or an uploader with its Retain still to do |
| `Retirement.RetiredReferencesAreCovered` | environment-a/api-service/internal/service/manifest_retirement_worker.go:60-100 | The same in every reachable state of one worker whose calls take effect at once or never, with no assumption on time or hashes |
| `Retirement.WantedComesFromCommits` | environment-a/api-service/internal/service/file_service.go:150-227 | A manifest becomes wanted (committed row, uploader past its vault commit, worker about to retain) only in the step in which the Vault commits it |
| `Retirement.RetainsComeInTime` | environment-a/api-service/internal/service/file_service.go:203-220 | If every request, uploader and worker gets to the retired manifest on its list within the grace, none of them ever retains too late |
| `Retirement.StepKeepsInv` | environment-a/api-service/internal/service/manifest_retirement_worker.go:60-100 | Under that timing every step keeps the Vault's invariant and keeps wanted manifests within reach |
| `Retirement.StepKeepsInvExactly` | environment-b/vault-core/cmd/vault-core/main.go:62-72 | The timing is exact: a step keeps all that if and only if it is no sweep, or comes while every window is within the grace |
| `Retirement.SoundExactlyWhenTimely` | environment-b/vault-core/cmd/vault-core/main.go:62-72 | Over whole runs: every state is sound if and only if no sweep of the run came too late |
| `Retirement.CommittedFilesKeepTheirBytes` | environment-a/api-service/internal/service/manifest_retirement_worker.go:60-100 | In every timely run, every manifest with a committed row reads back as the content it was made from; that no such manifest is off every list comes from coverage, not from the timing hypothesis |
| `RetirementRuns.OnlyTheRetainIsLeft` | environment-a/api-service/internal/repository/manifest_retirement_repository.go:196-207 | A reachable state in which the unconditional completion has overwritten a requeue and only the uploader's own Retain is left |
| `Tended.StepTendsExactly` | environment-a/api-service/internal/service/manifest_retirement_worker.go:60-100 | From a state where every active manifest without a committed row has a pending request or an uploader that has not yet tried to commit its row: any step of the system leaves such a state if and only if it is careful, a condition on the state before it (letting go of, retaining, completing or committing a manifest that nobody else sees to) |
| `Tended.RetainOwnExactly` | environment-a/api-service/internal/service/file_service.go:211-220 | An uploader's late Retain keeps that if and only if its manifest is missing, referenced, queued, or held by an uploader that has not yet tried to commit its row |
| `Tended.FinishExactly` | environment-a/api-service/internal/repository/manifest_retirement_repository.go:196-207 | A completion keeps that if and only if the item is retired, missing, referenced, or held by such an uploader |
| `Tended.CommitExactly` | environment-b/vault-core/internal/cas/store.go:605-699 | A Vault commit keeps that if and only if it fails, its uploader still waits for the answer, or its manifest is referenced, queued or held |
| `Tended.CrashExactly` | environment-b/vault-core/internal/cas/garbage_collector.go:34-60 | A crash of the Vault keeps that if and only if what the waiting uploaders hold is in use, queued, or held by one that has its answer |
| `Tended.TendedExactlyWhenCareful` | environment-a/api-service/internal/service/manifest_retirement_worker.go:60-100 | Over whole runs: no state strands a manifest if and only if every step of the run was careful |
| `Tended.CrewStepTendsExactly` | environment-a/api-service/internal/service/manifest_retirement_worker.go:26-58 | The same for one step of several workers, uploaders that give up and calls that land late: giving up strands nothing, a Retain that lands late does exactly when its manifest is there, unreferenced, not queued and not held |
| `Tended.CrewTendsExactlyWhenCareful` | environment-a/api-service/internal/service/manifest_retirement_worker.go:26-58 | And over whole runs of them |
| `RetirementRuns.StrandedManifest` | environment-a/api-service/internal/service/file_service.go:170-209 | A run that breaks it by giving up after the Vault's commit: it ends with an active manifest that no row refers to, no request mentions and nobody is at work on |
| `RetirementRuns.LateRetainStrands` | environment-a/api-service/internal/service/file_service.go:211-220 | A run that breaks it without any failure: the row is deleted and its request completed before the uploader's Retain makes the manifest active again |
| `Workers.RetireCoversExactly` | environment-a/api-service/internal/service/manifest_retirement_worker.go:77-80 | A retire, however stale, keeps coverage if and only if the manifest has no committed row, or has one and a pending request or an uploader with its Retain to do |
| `Workers.GiveUpCoversExactly` | environment-a/api-service/internal/service/file_service.go:211-220 | An uploader may drop its Retain if and only if its manifest needs none, has a pending request, or another uploader owes it one |
| `Workers.RequeueMakesGivingUpFresh` | environment-a/api-service/internal/service/file_service.go:211-214 | Once the uploader's requeue has reached a request it may drop its Retain |
| `Workers.StepCoversExactly` | environment-a/api-service/internal/service/manifest_retirement_worker.go:60-100 | With any number of workers, uploaders giving up and Vault calls landing after their callers have gone: one step (two identical calls can both be under way) keeps coverage if and only if it is no stale retire, no completion over a retired referenced manifest, and no giving up of the last duty |
| `Workers.CoveredExactlyWhenFresh` | environment-a/api-service/internal/service/manifest_retirement_worker.go:26-58 | Every state of a run with several workers is covered if and only if every step of the run was in order in that sense |
| `Workers.ExclusiveWorkersKeepCover` | environment-a/api-service/internal/repository/manifest_retirement_repository.go:149-194 | Several workers are safe as long as no two of them have the same item in hand |
| `WorkerRuns.TwoWorkersForgetAFile` | environment-a/api-service/internal/service/manifest_retirement_worker.go:26-28 | A run of two workers that ends with a retired manifest, a committed row, a completed request, and nobody left to retain it |
| `WorkerRuns.LateRetireForgetsAFile` | environment-b/vault-core/internal/cas/store.go:255-275 | The same with one worker that dies while its Retire waits for the Vault's lock and is restarted |
| `WorkerRuns.GivingUpForgetsAFile` | environment-a/api-service/internal/service/file_service.go:211-220 | The same with one worker and an uploader that gives up before its Retain |
| `Whole.ActKeepsInvExactly` | environment-b/vault-core/cmd/vault-core/main.go:32-37 | Everything at once (several workers, uploaders that give up, calls that land late, a collector with a Store of its own): an act keeps the Vault's invariant, coverage, and every needed manifest within reach if and only if it is in order: no stale retire, completion or giving up, no deletion of a chunk in use, no scan while a window is longer than the grace |
| `Whole.SoundExactlyWhenOrderly` | environment-b/vault-core/cmd/vault-core/main.go:32-37 | Over whole runs: every state keeps all of that if and only if every act was in order when it happened |
| `Whole.CommittedFilesKeepTheirBytes` | environment-a/api-service/internal/service/manifest_retirement_worker.go:26-58 | In every such run whose acts are in order (no stale retire, completion or giving up, no deletion of a chunk in use, no scan while a window is longer than the grace) every manifest with a committed row reads back as the content it was made from |
| `Locks.CommitDeleteIsAtomic` | environment-a/api-service/internal/repository/file_repository.go:330-394 | Under the advisory lock the statement-by-statement permanent delete commits exactly what one indivisible delete would, whatever committed in between |
| `Locks.FineRefinesAtomic` | environment-a/api-service/internal/repository/manifest_retirement_repository.go:19-105 | Every step of the fine-grained machine is an atomic step of the metadata or changes nothing visible |
| `Locks.StepKeepsInv` | environment-a/api-service/internal/repository/manifest_retirement_repository.go:77-105 | Locks, pending rows and counted references stay consistent under every interleaving |
| `Locks.FineRunIsAtomic` | environment-a/api-service/internal/repository/file_repository.go:86-125 | Every interleaved run of deletes and MarkCommitted refines a run of atomic transactions |
| `Locks.ConcurrentDeletesQueueExactly` | environment-a/api-service/internal/repository/manifest_retirement_repository.go:19-66 | After any interleaving of permanent deletes, a manifest that lost its last committed row has a pending request and one that keeps a row is not newly queued |
| `Locks.WithoutTheLockARequestIsLost` | environment-a/api-service/internal/repository/manifest_retirement_repository.go:93-105 | Without the advisory lock two deletes can each count the other's row and lose the request |
| `LockOrder.StepKeepsInv` | environment-a/api-service/internal/repository/manifest_retirement_repository.go:68-105 | From sorting and lock grants alone: every transaction's locks taken and to take ascend, and no key is held twice |
| `LockOrder.CircleMeansTangled` | environment-a/api-service/internal/repository/manifest_retirement_repository.go:68-105 | A circle of waits of any length in any run shows two ids with one key and an id with another key between them |
| `LockOrder.DeadlockExactlyWhenTangled` | environment-a/api-service/internal/repository/manifest_retirement_repository.go:68-105 | Some run reaches a circle of waits if and only if the lock hash gives two ids one key and an id sorted between them another |
| `LockOrder.NoDeadlockWithoutCollisions` | environment-a/api-service/internal/repository/manifest_retirement_repository.go:93-105 | With an injective lock hash no run reaches a circle of waits |
| `Repository.HasManifestReferences` | environment-a/api-service/internal/repository/manifest_retirement_repository.go:107-126 | True if and only if a committed row carries the manifest |
| `Repository.QueueManifestRetirements` | environment-a/api-service/internal/repository/manifest_retirement_repository.go:19-66 | Of the given ids exactly those without a committed row become pending afresh, with no attempts and due at once; all else stays |
| `Repository.FileRepository.CreatePending` | environment-a/api-service/internal/repository/file_repository.go:65-84 | Succeeds if and only if no active pending or committed file of the user has the folded name in that place; adds one pending row and keeps names unique |
| `Repository.FileRepository.PermanentDelete` | environment-a/api-service/internal/repository/file_repository.go:330-394 | Done if and only if the row is the user's, committed, trashed, and at the root or in an active directory; then the row goes and its manifest is queued exactly when this was its last reference |
| `Repository.FileRepository.MarkRowCommitted` | environment-a/api-service/internal/repository/file_repository.go:86-125 | Only the user's own pending row becomes committed, with the manifest and a new time |
| `Repository.FileRepository.MarkRowFailed` | environment-a/api-service/internal/repository/file_repository.go:127-142 | Only the user's own pending row becomes failed, and in no other field different |
| `Repository.FileRepository.ExpireStalePending` | environment-a/api-service/internal/repository/file_repository.go:581-593 | Exactly the pending rows older than the given time become failed, in no other field different, and their number is returned |
| `Repository.FailedRowFreesItsName` | environment-a/api-service/internal/repository/file_repository.go:127-142 | A row that fails, alone or together with others, leaves its name in its place to the next upload |
| `Repository.FileRepository.RequeueManifestRetirement` | environment-a/api-service/internal/repository/manifest_retirement_repository.go:128-147 | An existing request becomes pending and due at once; none is created |
| `Repository.FileRepository.MarkManifestRetirementCompleted` | environment-a/api-service/internal/repository/manifest_retirement_repository.go:196-207 | An existing request becomes completed, whatever its status |
| `Repository.FileRepository.MarkManifestRetirementFailed` | environment-a/api-service/internal/repository/manifest_retirement_repository.go:209-232 | An existing request becomes pending, whatever its status, and due sixty seconds later |
| `Repository.FileRepository.ClaimPendingManifestRetirements` | environment-a/api-service/internal/repository/manifest_retirement_repository.go:149-194 | Exactly the first of the pending, due and unlocked requests in the order of due time and id, up to the clamped limit; each gets one attempt more and is due in a minute; no status changes |
| `Outbox.FirstOf` | environment-a/api-service/internal/repository/manifest_retirement_repository.go:160-167 | The ordered, limited selection: ascending, no later candidate before an earlier one, and all of them when the limit allows |
| `Outbox.ClaimIsDetermined` | environment-a/api-service/internal/repository/manifest_retirement_repository.go:160-167 | Any two selections that meet that description are the same, so the order leaves a claim no choice |
| `Outbox.ClaimIsUndoneExactlyByAsking` | environment-a/api-service/internal/repository/manifest_retirement_repository.go:128-232 | Within the minute after its claim, whatever happens to the queue, an item can be claimed again if and only if the last thing that happened to it was a new request or a requeue |
| `Outbox.DueExactly` | environment-a/api-service/internal/repository/manifest_retirement_repository.go:19-232 | The last event about an item decides when it is due: at once when it was asked for, sixty seconds later when it was claimed or its attempt failed, never when it is done |
| `Outbox.AttemptsCountClaims` | environment-a/api-service/internal/repository/manifest_retirement_repository.go:173-186 | The attempts of an item are its claims since it was last asked for anew |
| `Repository.ProcessManifestRetirement` | environment-a/api-service/internal/service/manifest_retirement_worker.go:60-100 | With files, outbox and the Vault's manifests changing under it and every call able to fail: exactly when it succeeds; on success the request is completed, a manifest that either look found in use is in service, and one that neither did is as the others left it after its retirement; a failure completes nothing and puts the request off, unless the note fails too or it was the completion that failed; other manifests change only as the others change them |
| `Repository.RetainAndComplete` | environment-a/api-service/internal/service/manifest_retirement_worker.go:66-74 | The request is completed only after the Vault has retained the manifest |
| `Repository.LookAgain` | environment-a/api-service/internal/service/manifest_retirement_worker.go:82-99 | The second look, and exactly when it succeeds: a reference found leads to a retained manifest before the request is completed |
| `Directory.TakenMeansActiveSibling` | environment-a/api-service/internal/repository/directory_repository.go:84-143 | The closure-table query finds a duplicate if and only if an active directory of the same owner with the same parent has the folded name |
| `Directory.CreateKeepsIndex` | environment-a/api-service/internal/repository/directory_repository.go:20-82 | After a create the closure table is the exact index (ancestor, descendant, distance) of the forest with the new leaf |
| `Directory.PermanentDeleteKeepsIndex` | environment-a/api-service/internal/repository/directory_repository.go:487-542 | A permanent delete goes through exactly for the owner's deleted directory, and leaves the exact index of the forest without that subtree |
| `Directory.SoftDeleteExactly` | environment-a/api-service/internal/repository/directory_repository.go:343-411 | A soft delete dates exactly the directory, those below it and the files in them, keeps older dates, and changes nothing else |
| `Directory.RestoreExactly` | environment-a/api-service/internal/repository/directory_repository.go:413-485 | A restore clears the date of exactly those directories and files and changes nothing else |
| `Directory.PermanentDeleteExactly` | environment-a/api-service/internal/repository/directory_repository.go:487-542 | A permanent delete takes exactly those directories and files away and changes nothing that stays |
| `Trash.OneTrashRoot` | environment-a/api-service/internal/repository/directory_repository.go:571-600 | Every deleted directory has exactly one trash root among itself and its ancestors |
| `Trash.RestoreGoesThrough` | environment-a/api-service/db/migrations/000005_create_files.up.sql:29-39 | A restore is accepted by the unique index on active file names if and only if no two live files under the directory share owner, place and folded name, trashed or not |
| `Trash.RestoreUndoesSoftDelete` | environment-a/api-service/internal/repository/directory_repository.go:343-485 | Restoring right after a soft delete gives back the very same tables if and only if nothing in the subtree, files included, was deleted before |
| `Trash.RestoreTakesOneRoot` | environment-a/api-service/internal/repository/directory_repository.go:413-485 | Restoring a trash root takes exactly that one off the list of trash roots |
| `Trash.RestoringEveryTrashRoot` | environment-a/api-service/internal/repository/directory_repository.go:413-485 | Restoring all trash roots in any order leaves no deleted directory, and goes through if and only if the names under them do not collide |
| `Trash.ReusedNameBlocksRestore` | environment-a/api-service/internal/repository/directory_repository.go:413-485 | For every directory and name: trash a file, reuse its name, trash the directory, and the directory's restore is turned down |
| `DirectoryRuns.EveryRunStaysIndexed` | environment-a/api-service/internal/repository/directory_repository.go:20-542 | In every run of directory creates, soft deletes, restores and permanent deletes and of file uploads, status changes, trashings, restores and permanent deletes, the closure table stays the exact index of a forest with one owner per tree, and active file names stay unique |
| `DirectoryRuns.OneFileExactly` | environment-a/api-service/internal/repository/file_repository.go:276-394 | One file: trashing dates it, bringing it back gives the very tables from before, a purge takes it and nothing else; each exactly for its owner, once it is committed, at the root or in an active directory |
| `DirectoryRuns.TrashCanBeCleared` | environment-a/api-service/internal/repository/directory_repository.go:571-600 | The trash-root properties for every state reachable from the empty database |
| `DirectoryRules.RestoreKeepsUpwardsExactly` | environment-a/api-service/internal/repository/directory_repository.go:413-485 | A restore keeps every active directory below an active one if and only if the directory it starts at is at the root or has an active parent |
| `DirectoryRules.RestoreKeepsApartExactly` | environment-a/api-service/internal/repository/directory_repository.go:413-485 | A restore keeps active siblings of one owner apart in name if and only if no two of the directories that come back share place and name, and every other namesake of one of them is deleted |
| `DirectoryRules.OpKeepsRuleExactly` | environment-a/api-service/internal/repository/directory_repository.go:20-542 | Of all operations only a restore can break either rule, and it does exactly when it does not meet the rule's condition |
| `DirectoryRules.RuleKeptExactly` | environment-a/api-service/internal/repository/directory_repository.go:20-542 | Over whole runs: either rule holds in every state if and only if each restore met the rule's condition when it happened |
| `DirectoryRules.RulesKeptFromTheStart` | environment-a/api-service/internal/repository/directory_repository.go:20-542 | The same for every run from the empty database, with no hypothesis left |
| `DirectoryRuns.SiblingsMayShareAName` | environment-a/api-service/internal/repository/directory_repository.go:413-485 | For any name a run of four steps that ends with two active sibling directories of that name |
| `DirectoryRuns.ActiveBelowDeleted` | environment-a/api-service/internal/repository/directory_repository.go:413-485 | A run of four steps that ends with an active directory under a deleted one |
| `Directories.DirectoryRepository.Create` | environment-a/api-service/internal/repository/directory_repository.go:20-143 | Not found, conflict or done, each exactly when the forest says so; done adds one leaf and keeps the index |
| `Directories.DirectoryRepository.SoftDeleteSubtree` | environment-a/api-service/internal/repository/directory_repository.go:343-411 | Exactly the directory and its descendants are stamped, what was deleted keeps its time, exactly the files in them get the same treatment |
| `Directories.DirectoryRepository.RestoreSubtree` | environment-a/api-service/internal/repository/directory_repository.go:413-485 | Exactly the directory and its descendants come back, or nothing changes when the names collide |
| `Directories.DirectoryRepository.PermanentDeleteSubtree` | environment-a/api-service/internal/repository/directory_repository.go:487-542 | The subtree, its links and its files go, and exactly the manifests that lose their last committed row become pending |
| `Directories.CommittedManifests` | environment-a/api-service/internal/repository/directory_repository.go:505-523 | The loop collects exactly the manifests of committed files in the subtree |
| `Breadcrumbs.BreadcrumbIsActiveWalk` | environment-a/api-service/internal/repository/directory_repository.go:191-212 | The query has exactly one possible answer: the walk from the root down to the directory without its deleted ancestors, or not found |
| `Breadcrumbs.BuildPath` | environment-a/web-client/src/pages/dashboard/_components/Breadcrumb.tsx:10-32 | The loop ends on any records, cycles included: nothing for no id or a missing record, else a trail of distinct records ending at the id, each the parent of the next, that cannot go on |
| `Breadcrumbs.RootShowsItself` | environment-a/web-client/src/pages/dashboard/_components/Breadcrumb.tsx:17-29 | A directory whose parent is absent or the empty string is shown alone |
| `Breadcrumbs.FinishedTrailIsTheWalk` | environment-a/web-client/src/pages/dashboard/_components/Breadcrumb.tsx:17-32 | Whenever the records on file name their true parents, whatever is missing, a trail that ends without breaking is the complete walk from the root |
| `Breadcrumbs.ClientShowsAllOrNothing` | environment-a/web-client/src/pages/dashboard/_components/Breadcrumb.tsx:10-32 | With what a client can fetch on file, it shows the complete walk when no directory on the way up is deleted, and otherwise nothing at all |
| `Breadcrumbs.BreadcrumbsAgree` | environment-a/web-client/src/pages/dashboard/_components/Breadcrumb.tsx:10-32 | For records of active directories of the user only, among them all that have no deleted one above them: the server's and the client's breadcrumb list the same directories if and only if no ancestor is deleted |
| `ClientTree.ClientHasFetched` | environment-a/api-service/internal/repository/directory_repository.go:145-190 | The answers of the tree query for the roots and for each root's subtree, merged, are records of exactly that kind |
| `ClientTree.Merge` | environment-a/web-client/src/pages/dashboard/_api/directoryApi.ts:10-31 | The nested loops give one record for each id, the last one answered, in some order |
| `ClientTree.ShowBreadcrumb` | environment-a/web-client/src/pages/dashboard/_api/directoryApi.ts:10-31 | From the queries to the screen, for any active directory of the user: what the client asks, merges and walks is the server's breadcrumb if and only if no directory on the way up is deleted, and nothing otherwise |
| `RateLimit.RateLimiter.constructor` | environment-a/api-service/internal/middleware/rate_limit.go:32-45 | A burst that is not positive or exceeds the limit becomes the limit; no buckets |
| `RateLimit.RateLimiter.Allow` | environment-a/api-service/internal/middleware/rate_limit.go:72-97 | The answer and the new buckets, as the specification the properties below are about gives them |
| `RateLimit.RateLimiter.EvictStale` | environment-a/api-service/internal/middleware/rate_limit.go:60-70 | The loop removes exactly the buckets unseen for more than two windows |
| `RateLimit.RunStaysInRange` | environment-a/api-service/internal/middleware/rate_limit.go:72-97 | In every run with a non-decreasing clock and a limit of at least 1, tokens stay between 0 and the burst |
| `RateLimit.AdmittedIsPaidFor` | environment-a/api-service/internal/middleware/rate_limit.go:72-97 | What a client gets admitted plus what it has left never exceeds what it had plus what the time refills, evictions included |
| `RateLimit.AtMostBurstPlusRate` | environment-a/api-service/internal/middleware/rate_limit.go:72-97 | After any run, in any interval of length T, wherever it begins, one client is admitted at most burst + T * limit / window times |
| `RateLimit.AdmittedExactly` | environment-a/api-service/internal/middleware/rate_limit.go:72-97 | A request is admitted if and only if, counted from every earlier event on, the client has had at most burst + elapsed * limit / window - 1 requests admitted |
| `RateLimit.BurstIsGranted` | environment-a/api-service/internal/middleware/rate_limit.go:72-97 | A client that has had fewer than burst requests admitted gets the next one |
| `RateLimit.IdleClientIsAdmitted` | environment-a/api-service/internal/middleware/rate_limit.go:84-96 | A client silent for window / limit is admitted, whatever the others did and whether or not it was evicted |
| `RateLimit.EvictionIsUnseen` | environment-a/api-service/internal/middleware/rate_limit.go:60-97 | With a limit of at least 1 a limiter that evicts at arbitrary times answers every request as one that never evicts |
| `RateLimit.EvictionShows` | environment-a/api-service/internal/middleware/rate_limit.go:60-82 | With a limit of 0 or less a three-step run tells the two apart |
| `RateLimit.EvictionIsUnobservableExactlyWithALimit` | environment-a/api-service/internal/middleware/rate_limit.go:60-97 | Eviction is unobservable if and only if the limit is at least 1 |
| `Sse.ParseSse` | environment-a/web-client/src/shared/lib/sse.ts:6-21 | The nested loops compute the frames of the closed segments and the unfinished rest |
| `Sse.SegmentMeansItsFields` | environment-a/web-client/src/shared/lib/sse.ts:11-18 | A segment of any fields is one frame with the last event name, or the default, and all data pieces in order on lines of their own; without data it is none |
| `Sse.TrimTakesBlanksOnly` | environment-a/web-client/src/shared/lib/sse.ts:14-16 | Trimming takes blanks off both ends and all of them |
| `Sse.JoinUndoesSplit` | environment-a/web-client/src/shared/lib/sse.ts:8-13 | Splitting loses nothing |
| `Sse.ReadStream` | environment-a/web-client/src/pages/dashboard/admin/security-monitoring/_hooks/useSecurityMonitorStream.ts:53-69 | The read loop over any pieces yields the frames of the concatenated stream and keeps its rest |
| `Sse.CutMakesNoDifference` | environment-a/web-client/src/shared/lib/sse.ts:6-21 | Parsing a part, then its rest with what follows, gives the same frames and rest as parsing all at once |
| `Sse.WireRoundTrip` | environment-a/api-service/internal/transport/http/security_monitor_handler.go:160-165 | One written message parses back to its frame, a heartbeat to none, with nothing left over |
| `Sse.StreamRoundTrip` | environment-a/api-service/internal/transport/http/security_monitor_handler.go:148-170 | A whole written stream parses back to exactly the frames sent, in order |
| `Sse.PiecesRoundTrip` | environment-a/api-service/internal/transport/http/security_monitor_handler.go:148-170 | However the stream is cut, and wherever it breaks off, the reader sees a prefix of the frames sent, and all of them at the end |
| `Sse.ReadBackExactlyWhenPlain` | environment-a/web-client/src/shared/lib/sse.ts:12-18 | A message comes back as written if and only if its event name and payload are single lines without blanks at the edges |

## Left out

- Store.Store.ProcessUpload: upload session records, the dedup ratio and the file name are not modelled, and all chunks of one upload carry one time stamp; a failing transaction changes nothing.
- Store.Store.CollectGarbage: the SkippedActiveChunks counter is not modelled, because the code counts some chunks twice.
- Store.Store.TouchChunk: hashes are taken in canonical form, so normalizeHash, blank upload ids and the fan-out directories of chunk paths are not modelled.
- Directories.DirectoryRepository.PermanentDeleteSubtree: one indivisible transaction; a MarkCommitted inside the subtree between its reading of the manifest ids and its delete is not modelled.
- Outbox: error texts and completion times of requests are not modelled; a failing claim changes nothing.
- LockOrder.Sorted: manifest ids are numbers in their sort order; the lock key is an arbitrary function of them.
- Retirement.RetiredReferencesAreCovered: no Vault call lands after its caller has gone; `Workers` models that.
- RateLimit.RateLimiter.Allow: reals instead of floating point, so rounding is not modelled; the clock is a parameter and the mutex is not modelled.
- Sse.ReadStream: starts from decoded text; byte decoding and the handling of each frame are not modelled.
- Concurrency inside the classes: their methods run one at a time; interleavings are the subject of `VaultMachine`, `Retirement` and `Locks`.
- Badger, Postgres and the file system: a Badger update and a SQL transaction are atomic map updates (except in `Locks`), link-into-place is insert-if-absent, JSON encoding is the identity.
- ClientTree.ShowBreadcrumb: all of the client's queries are answered in one state of the database; names, depths and the order of the list are not modelled.
- Detail, starring and paging of directories: each is one filter over the closure table whose meaning follows from `Directory.Indexed`.
- "Every unreferenced manifest is eventually retired" would need fairness of the worker as well; its safety half, that no manifest falls off every list, is `Tended`.
- putChunk: has no caller, and overwrites records blindly.
- Hash functions, HTTP handlers, sockets, mail, configuration, authentication, analytics, reports, search, and all user interface but the breadcrumb: no state of their own, or only easy members.
