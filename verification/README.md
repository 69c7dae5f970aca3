# Two-store commit and recovery, proved

This project models the part of the transfer server and its client on which correctness
rests, and proves that it holds over every run.

Transfer rows live in a database, their bytes in three directories (staging, live,
trash). The two stores cannot share a transaction, so a commit is a fixed order of
durable steps, and a startup pass repairs whatever a crash left. The project models:

* the manifest and its validation (`Protocol`, `Validation`), and its rules once more in
  characters and numbers (`Rules`);
* the durable state and its atomic steps (`Storage`, `MetadataStore`, `FileLayout`), the
  lifecycle as a state machine with a crash between any two steps (`Lifecycle`), its
  invariant (`Safety`) and the statements about whole runs (`Runs`);
* the running service, whose methods enter every durable change in a history that is a
  run of that machine: commit (`Serving`, `Committing`), the one-request upload
  (`SimpleUploads`), claims and serving (`Claiming`), the manifest cache (`Caching`), the
  startup pass (`Recovery`, `Allocation`, `Reconciling`) and the janitor (`Sweeping`,
  `Cleaning`);
* the payload transformation: the scan (`Naming`, `Scanning`, `Paths`), the assembled
  manifest (`Assembling`, `Acceptance`) and its submission (`Submitting`),
  materialization (`Trees`, `Payloads`, `Extracting`, `Placing`, `Materializing`), the
  whole handoff (`Handoff`) and the receipt of a simple upload (`Receiving`);
* the resumable byte loops (`Uploads`, `Fetching`) and the worker pools around them
  (`Pools`);
* the failure limiter (`Limiting`) and idempotency keys (`Idempotency`).

Assumptions. Operations on one transfer identifier do not overlap; operations on
different identifiers interleave freely. A database transaction, a rename and a file write
either happen or the process dies; errors the code only logs are not modelled. The clock
does not run backwards. BLAKE3 is taken to be free of collisions: a digest names its
bytes, and the manifest digest column names the manifest. The archive format is an encoder
and a decoder that inverts it. The group proof is sound, and in one clause complete.
Random draws, fresh identifiers, tokens, clocks and everything the network or the disk may
answer are parameters.

Where the code and its documents disagree the code is followed. ADR 0001 calls the
manifest cache an LRU; a read never reorders it, so it is first in, first out.

What the proofs show to fail, with the condition under which it holds:

* An idempotency key promises one commit. The purge of expired keys keeps the promise
  exactly when no request outlives its key; the purge, the release and the completion all
  act on the key alone (`Idempotency.PurgeKeepsExactly`, `Idempotency.OutlivedKeyBreaks`).
* A pool may report success with jobs undone if the caller's context is cancelled, exactly
  if it stops early and has jobs (`Pools.HidesJobsExactly`, `Pools.NilMeansAllDone`).
* The failure limit is perMinute * (1 + T) only while the attempts of one key follow one
  another. With k of them open at once it is perMinute + (k - 1) + k * perMinute * T by the
  time they ask, and k more by the time they fail; both are reached
  (`Limiting.Limiter.FailuresBounded`, `Limiting.ReachAllowance`,
  `Limiting.Limiter.RecordedBounded`, `Limiting.ReachRecorded`).
* A scanned tree is refused at commit if it has no file, a time before 1970, or two
  directories that differ in case only (`Acceptance.ValidExactly`).
* A commit that finds no free code leaves a VERIFYING row with a live directory. The
  startup pass finishes it unless it finds no free code either; which commits those are is
  known from the disk and the draws (`Recovery.PassReachesAgreement`,
  `Allocation.AgreementForeseen`). A code of a row that the pass removes becomes free when
  that row is visited, so with such draws the order of the rows decides.
* A working directory left by a killed receive hands its files to the next receive at the
  same destination (`Handoff.Deliver`).
* A zero-length segment without a verification tree can be fetched exactly if an empty file
  is there already, so a simple upload with an empty file is never received into a
  fresh directory (`Fetching.FetchSegment`, `Receiving.ReceiveSimple`).

## Model

| member | source | states |
|---|---|---|
| Protocol.CountBytes | internal/protocol/manifest.go:81-89 | The one-pass byte count is the sum of the file entries' sizes. |
| Validation.Validate | internal/protocol/manifest.go:121-253 | The checks, run in their order, accept exactly the manifests that satisfy the declarative rules; no two roots and no two entries of an accepted one differ in case only. |
| Validation.CheckEntries | internal/protocol/manifest.go:178-238 | The pass over the entries accepts exactly the lists in which every entry is valid and no two share a normalized path or a raw segment. |
| Validation.CheckReferences | internal/protocol/manifest.go:239-251 | Accepts exactly when every segment is referenced by some entry. |
| Validation.RawSegmentBacksOneFile | internal/protocol/manifest.go:159-251 | In a valid manifest a raw segment backs exactly one file, with the segment's own size and digest. |
| Validation.FindsItself | internal/protocol/manifest.go:110-117 | With distinct identifiers a lookup finds the segment itself, so the one-way lookup is enough. |
| Protocol.ClashIsSameLower | internal/protocol/manifest.go:264-268 | Normalized paths are equal exactly when the paths agree character by character up to the case of ASCII letters. |
| Rules.ByteLenIsEncoded | internal/protocol/manifest.go:121-140 | The length the limits speak of is that of the UTF-8 form. |
| Rules.DecodesBack | internal/protocol/manifest.go:288-290 | The UTF-8 form used for those lengths decodes back to the character, byte by byte. |
| Rules.CharacterRules | internal/protocol/manifest.go:321-334 | Control, reserved, zero-width and direction-changing characters are refused in a name; letters, digits and the usual marks are taken. |
| Rules.DeviceNamesRefused | internal/protocol/manifest.go:270-277 | A device name in any case, with an extension or without one, is refused. |
| Rules.PortableNameExactly | internal/protocol/manifest.go:311-346 | A name is portable exactly when its UTF-8 length, its characters, its last character and its part before the first dot allow it. |
| Rules.PortablePathExactly | internal/protocol/manifest.go:279-308 | A path is portable exactly when it is short enough and every stretch between slashes is a portable name; so it is relative, names no drive and climbs nowhere. |
| Rules.ValidIsLawful | internal/protocol/manifest.go:121-253 | A manifest is valid exactly by the rules written out: every limit in numbers, every lookup and normalized key spelled out, one file for a raw segment, no unreferenced segment. |
| Storage.SecondsAgree | internal/store/sqlite/store.go:604-639 | The whole-second comparisons of the queries and the nanosecond comparisons of the requests agree at every instant. |
| Storage.CompleteLooksValid | internal/transfer/publish.go:117-141 | A directory that matches its manifest byte for byte passes the cheap check the server makes at startup. |
| Storage.CompleteIsAllThere | internal/transfer/publish.go:117-141 | A directory is complete exactly when every declared file is in the payload at its size and digest, every directory is one, and bytes of each segment's size and digest lie at its storage path. |
| MetadataStore.Store.PublishTransfer | internal/store/sqlite/store.go:374-429 | The publish transaction: on a first success one of the sixteen draws that no row carries, committed in the second of the clock, expiring 60 * ttl seconds later, manifest and bytes recorded, other columns kept; an already committed row unchanged; refused exactly for a missing, closed or coded row or without a free draw, and then without a change. |
| MetadataStore.Store.GetTransferByCode | internal/store/sqlite/store.go:282-289 | Finds the row that carries the code, and reports none exactly when no row carries it. |
| MetadataStore.Store.ExpireAllDue | internal/store/sqlite/store.go:604-617 | Expires exactly the committed rows whose expiry second has come on the nanosecond clock, and counts them. |
| MetadataStore.Store.UnpinnedExpired | internal/store/sqlite/store.go:620-639 | Lists exactly the EXPIRED, FAILED and ABANDONED rows every claim on which is finished or past its lease. |
| MetadataStore.Store.StaleStaging | internal/store/sqlite/store.go:642-659 | Lists exactly the CREATED, UPLOADING and VERIFYING rows created before the deadline. |
| MetadataStore.Store.PurgeTransfer | internal/store/sqlite/store.go:662-676 | Removes the row with its claims and nothing else. |
| FileLayout.Layout.PublishDir | internal/store/files/layout.go:91-109 | Moves the staging directory to live in one step; an existing live directory is left as it is and counts as published. |
| FileLayout.Layout.EmptyTrash | internal/store/files/layout.go:132-149 | Empties the trash and counts what was there. |
| FileLayout.Layout.MoveLive | internal/store/files/layout.go:112-129 | Moves the live directory into its trash slot, if there is one. |
| FileLayout.Layout.RemoveStaging | internal/store/files/layout.go:197-199 | Removes the staging directory and touches nothing else. |
| Safety.StartSound | internal/transfer/publish.go:25-64 | An empty data directory satisfies the invariant. |
| Safety.StepKeepsInv | internal/transfer/publish.go:25-64 | Every durable or in-memory step, a crash included, keeps the invariant of rows, directories, cache, claims and codes. |
| Safety.RunKeepsInv | internal/transfer/publish.go:25-64 | The invariant holds in every state of every run that starts in a state that satisfies it. |
| Safety.CommitKeepsCell | internal/transfer/publish.go:25-64 | Each of the five commit steps keeps what is known about the transfer: complete live data, matching columns, consistent progress. |
| Safety.ServeKeepsCell | internal/janitor/janitor.go:47-107 | Each step of expiring and deleting keeps what is known about the transfer. |
| Safety.RecoverKeepsCell | internal/reconcile/reconcile.go:28-120 | Each step of the startup pass keeps what is known about the transfer. |
| Runs.CodeResolvesToCompleteData | internal/transfer/service.go:201-226 | In every state of every run, crashes anywhere, a code that resolves leads to a committed, unexpired row whose live directory has a valid manifest, every entry by size and digest, and every segment served. |
| Runs.CodeNamesOneCommit | internal/store/sqlite/store.go:374-429 | Only a transfer that reached COMMITTED has a code, its row records what the commit was asked for, and no other row has that code. |
| Runs.LeasePins | internal/store/sqlite/store.go:517-560 | An uncompleted claim whose lease runs keeps its transfer: the row is COMMITTED or EXPIRED and the live directory is complete. |
| Runs.LeaseNeverShortens | internal/store/sqlite/store.go:554-560 | While a claim exists its lease never gets shorter. |
| Runs.CacheIsCoherent | internal/transfer/service.go:229-239 | A cached manifest is the manifest in that transfer's live directory. |
| Runs.CommitIsFinal | internal/store/sqlite/store.go:374-429 | Code, commit time and expiry are written at most once and never change while the row exists. |
| Runs.StepSpares | internal/janitor/janitor.go:47-107 | No step of a request, of the janitor or of a startup pass changes the row or the live directory of a committed transfer before its expiry second. |
| Runs.CodeLastsItsMinutes | internal/transfer/service.go:201-226 | Once a commit has dated its row, then in every later state of every run up to 60 * ttl seconds after, crashes anywhere, the code resolves to this transfer and its data is all there. |
| Runs.CodeEnds | internal/transfer/service.go:216-223 | From the expiry second on the code resolves no more. |
| Runs.ClaimLasts | internal/store/sqlite/store.go:517-560 | While its lease runs an unfinished claim is never removed: its token stays, its lease does not shorten, and its transfer's data is all there. |
| Runs.AskIsFixed | internal/transfer/publish.go:25-64 | Once a transfer has been renamed into live, no later step of any run changes what its commit was asked to publish. |
| Runs.CrashedCommitRefines | internal/transfer/publish.go:89-114 | A commit that crashes after the rename and is finished at startup ends in the row an uninterrupted commit writes: note, TTL, manifest digest, bytes, no reservation, expiry TTL minutes after the commit. |
| Runs.DeletionListStaysTrue | internal/janitor/janitor.go:74-95 | A transfer that was terminal and unpinned when the deletion list was read is still so, or gone, however much later the list is worked through. |
| Serving.Service.CommitSteps | internal/transfer/publish.go:25-64 | The five durable steps in their order, each entered in a history that is a run of the lifecycle, compose to the whole commit. |
| Serving.Service.PublishTransfer | internal/transfer/publish.go:25-64 | On success the row is the one asked for under a fresh drawn code, committed in the present second and expiring 60 * ttl seconds later, the directory is live with its manifest and the manifest is cached; otherwise every draw was taken and the renamed directory waits. |
| Serving.NothingLiveYet | internal/transfer/publish.go:25-64 | Before a commit starts the transfer has no live directory and no code. |
| Committing.AgreementIsBijection | internal/transfer/advanced.go:306-368 | Equal counts, distinct identifiers and a one-way lookup put declared and stored segments in bijection, each with the declared kind, received whole at the declared size and digest, and with no other digest announced. |
| Committing.CheckManifest | internal/transfer/advanced.go:286-304 | Accepts exactly the manifests of this transfer that are valid and within the file, note and byte limits. |
| Committing.CheckSegments | internal/transfer/advanced.go:311-368 | Accepts exactly when every declared segment was created so, was received whole, and hashes to its declared digest. |
| Committing.MaterializeAndPublish | internal/transfer/advanced.go:370-386 | Either the transfer is published as asked or it is failed for good; from an empty payload the staged bytes decide which. |
| Committing.CommitTransfer | internal/transfer/advanced.go:265-387 | Every outcome of a commit: unknown, wrong state and inadmissible requests change no row; a repeated commit returns the stored response and changes nothing; an admissible one is published or failed. A first success records note, manifest and bytes, is dated now, expires after the requested minutes or the default for a request of zero, and answers with the code and the times of the row. |
| SimpleUploads.SimpleSession.constructor | internal/transfer/simple.go:45-73 | Opens an empty staging directory and a CREATED row. |
| SimpleUploads.SimpleSession.AddFile | internal/transfer/simple.go:101-188 | A part is taken exactly when its name is portable and clashes with none taken before, the count and the size allow it and the stream ends; it adds exactly this file with its bytes, digest, mode 0644 and the present time; a failure keeps the session's entries, and a half-written file never disturbs the others. |
| SimpleUploads.SimpleSession.Finish | internal/transfer/simple.go:194-217 | Publishes nothing without a file or with an invalid manifest; a success leaves a complete live directory and a row that records the request, dated now and expiring after its minutes, answers with its code and times, and every segment is one file at the top of the payload. |
| SimpleUploads.SimpleSession.Abort | internal/transfer/simple.go:221-231 | Removes an unpublished session's row and staging directory and leaves a published one alone. |
| SimpleUploads.StagedMatches | internal/transfer/simple.go:194-217 | What a session has staged matches its manifest, entry by entry and segment by segment, so the publish step may start. |
| Recovery.PassReachesAgreement | internal/reconcile/reconcile.go:28-120 | From any disk, the pass ends with no VERIFYING or DELETING row, every committed row passing the payload check, every open row owning a staging directory, no orphan directory and empty trash, exactly when every interrupted commit it could draw no free code for was CREATED or UPLOADING and owns a staging directory. |
| Recovery.PassNoticesLoss | internal/transfer/publish.go:117-141 | A committed transfer that lost its live directory, its manifest, an entry or the size of a file goes with its row and directories; one that has them all stays as it is; an open transfer with such a loss never becomes COMMITTED. |
| Recovery.PassKeepsTime | internal/transfer/publish.go:89-114 | A commit finished at startup is dated then and expires after the minutes its row asks for, or the default for zero. |
| Recovery.SecondPassChangesNothing | internal/reconcile/reconcile.go:28-120 | A pass run again, at any later time, changes at most the transfers whose commits the first pass refused; nothing at all if it refused none. |
| Recovery.OrderChoosesOnlyCodes | internal/reconcile/reconcile.go:40-80 | Two passes over the same disk, in any row order and at any times, differ, outside the commits either refused, only in fresh codes and in commit times that keep their distance to the expiry. |
| Allocation.FinishedUnderOwnDraw | internal/transfer/publish.go:89-114 | A commit the pass finishes gets the first of its own draws that no row carries at its turn, and never a code some kept row carried at the start. |
| Allocation.FreeDrawSuffices | internal/reconcile/reconcile.go:51-66 | In any row order, an interrupted commit without a code is finished if one of its draws is free at the start and drawn by no other. |
| Allocation.TakenDrawsRefuse | internal/reconcile/reconcile.go:51-66 | In any row order, an interrupted commit is refused if rows the pass keeps carry all its draws. |
| Allocation.RefusedExactly | internal/reconcile/reconcile.go:51-66 | When no code is drawn for two commits or carried by a row that goes, the refused commits are exactly those with a code already or with every draw taken at the start. |
| Allocation.AgreementForeseen | internal/reconcile/reconcile.go:28-120 | With such draws the stores agree after the pass exactly when every commit for which no code can be found was CREATED or UPLOADING and owns a staging directory: told from the initial disk and the draws. |
| Allocation.FreeDrawsAgree | internal/reconcile/reconcile.go:28-120 | If every interrupted commit has a free draw of its own, nothing is refused, in any order, and the stores agree afterwards. |
| Reconciling.CheckLive | internal/transfer/publish.go:117-141 | The payload check as a loop decides exactly the declarative condition (what that is in files and sizes, Recovery.PassNoticesLoss states). |
| Reconciling.RecoverOne | internal/reconcile/reconcile.go:40-92 | One row is settled by its state and directories: a committed one goes exactly with its payload, an interrupted commit is finished under the first free one of its draws and with the minutes it asked for; no other transfer changes. |
| Reconciling.VisitRows | internal/reconcile/reconcile.go:40-92 | All rows, in any order, are settled; rows and refusals are the ones that order and the draws determine, and the counts are exact. |
| Reconciling.DropOrphanLive | internal/reconcile/reconcile.go:93-104 | Every live directory without a row goes to the trash with its staging, nothing else does, and the count is exact. |
| Reconciling.DropOrphanStaging | internal/reconcile/reconcile.go:105-114 | Every staging directory without a row is removed, nothing else is, and the count is exact. |
| Reconciling.Run | internal/reconcile/reconcile.go:28-120 | The whole pass, from any disk at all, reaches the state its specification describes: lost files, entries and manifests are noticed, finished commits keep their minutes, and codes and refusals are the ones its order and draws determine; free draws of their own for all interrupted commits leave nothing refused and the stores in agreement; the report is exact. |
| Sweeping.UnexpiredStays | internal/janitor/janitor.go:47-107 | A sweep never touches an unexpired committed transfer. |
| Sweeping.LeasedStays | internal/janitor/janitor.go:74-95 | A sweep never removes a transfer with a running lease, nor its claim. |
| Sweeping.DeletedExactly | internal/janitor/janitor.go:74-95 | A sweep deletes exactly the transfers that are or become terminal and have no running lease, with their directories and claims. |
| Sweeping.SweptInNumbers | internal/janitor/janitor.go:47-107 | For each state, in seconds: an open transfer younger than the staging timeout and an unexpired committed one stay as they are; older ones are abandoned or expired and, like all terminal ones, go unless an unfinished claim's lease still runs. |
| Sweeping.SweepTwice | internal/janitor/janitor.go:46-107 | A second sweep at the same instant changes nothing. |
| Cleaning.DeleteOne | internal/janitor/janitor.go:79-93 | One deletion, step by step: marked, manifest dropped, directories moved, row purged; nothing else changes. |
| Cleaning.Sweep | internal/janitor/janitor.go:47-107 | The pass as a sequence of durable steps ends in exactly the specified disk with exact counts, and does to each transfer what its state, its age in seconds and its running leases call for. |
| Claiming.LookupCommitted | internal/transfer/service.go:201-226 | Resolves a code exactly when its row is COMMITTED and the clock is before its expiry second, tells an expired code from an unknown one, and records an expiry noticed on the way. |
| Claiming.ManifestOf | internal/transfer/service.go:229-239 | Whether from memory or from disk, the manifest is the live directory's, and the directory is complete. |
| Claiming.CreateClaim | internal/transfer/service.go:292-342 | Succeeds exactly for a claimable code; the claim runs 1800 seconds from now and the data it names is complete. |
| Claiming.LocalPath | internal/transfer/service.go:455-483 | Succeeds exactly for a claimable code and hands out a complete live directory under a lease of the configured grace minutes, without a token. |
| Claiming.AuthorizeClaim | internal/transfer/service.go:436-451 | Accepts exactly the claim's own token, up to the lease's second. |
| Claiming.HeldClaim | internal/transfer/service.go:373-394 | A claim a token opens is remote, and while it is unfinished its transfer is still served. |
| Claiming.ClaimSegmentFile | internal/transfer/service.go:398-422 | What is served has the declared wire size and digest; the lease of an unfinished claim is renewed to 1800 seconds from now; a holder of an unfinished claim is refused only for a segment the manifest does not have. |
| Claiming.FinishClaim | internal/transfer/service.go:425-434 | Records the completion time and changes nothing else. |
| Caching.ManifestCache.Get | internal/transfer/service.go:507-512 | Reads without reordering. |
| Caching.ManifestCache.Put | internal/transfer/service.go:514-526 | Keeps the order free of repeats, equal to the keys and within the limit, evicting the oldest entries first. |
| Caching.ManifestCache.Drop | internal/transfer/service.go:528-538 | Removes the entry from both the map and the order. |
| Caching.OldestGone | internal/transfer/service.go:514-526 | Removing the oldest entry leaves the order without repeats and equal to the remaining keys. |
| Extracting.IndexEntries | internal/materialize/materialize.go:51-59 | The index by segment lists exactly each segment's file entries in manifest order. |
| Extracting.MakeFolders | internal/materialize/materialize.go:61-80 | Every needed folder is there, no file changed, and no name appeared but a folder some entry needs. |
| Extracting.CheckMember | internal/materialize/materialize.go:206-222 | Accepts exactly the regular, declared, unseen members of the declared size. |
| Extracting.ExtractPack | internal/materialize/materialize.go:174-251 | Whatever the archive holds, only declared paths are written; it succeeds exactly when the archive lists the declared files once each at their sizes. |
| Placing.RawList | internal/materialize/materialize.go:92-96 | In a valid manifest the list behind a raw segment has exactly one entry, so the branch that refuses it is never taken. |
| Placing.SegmentsApart | internal/materialize/materialize.go:86-122 | Different segments write disjoint sets of paths. |
| Placing.PlaceSegments | internal/materialize/materialize.go:86-122 | With nothing in the way the segments are placed exactly when each is staged in its shape; each keeps to its own paths. |
| Placing.PathsKeepValidity | internal/materialize/materialize.go:82-118 | Storage paths play no part in validity, so the published manifest is valid. |
| Placing.PublishedMatches | internal/materialize/materialize.go:27-35 | Every published storage path leads to bytes of the declared wire size and digest, and the payload holds every entry. |
| Materializing.ApplyMetadata | internal/materialize/materialize.go:124-144 | Sets bit and time of every file entry and changes nothing else. |
| Materializing.Verify | internal/materialize/materialize.go:253-315 | Succeeds exactly when every declared file is a regular file of its size and digest. |
| Materializing.SetFolderTimes | internal/materialize/materialize.go:150-161 | Sets the declared directories' times and disturbs no file. |
| Materializing.FilesExactly | internal/materialize/materialize.go:86-171 | The payload's regular files are the declared ones and those that were there before. |
| Materializing.DoneMeansSupplied | internal/materialize/materialize.go:86-171 | A success shows that the staged segments were exactly the declared ones and yielded every declared file. |
| Materializing.SuppliedIsProven | internal/materialize/materialize.go:146-169 | Segments that yield every declared file pass verification and leave nothing staged. |
| Materializing.DoneMeansTreelike | internal/materialize/materialize.go:61-80 | A success shows that no entry lies below a file. |
| Materializing.SuppliedExactly | internal/materialize/materialize.go:86-251 | What must be staged, spelled out: exactly the declared segments, a raw one with its size and digest, a pack that unpacks to regular members which are its declared files, once each, by size and digest. |
| Payloads.TreelikeExactly | internal/materialize/materialize.go:61-80 | No entry lies below a file exactly when no file's path is continued by another's after a slash, and no directory has a file's path. |
| Payloads.ExecutableDigits | internal/materialize/materialize.go:133-136 | A mode makes a file executable exactly when one of its three octal digits is odd. |
| Materializing.Run | internal/materialize/materialize.go:39-172 | From an empty payload it succeeds exactly when the staged segments are the declared ones and no entry lies below a file; then the tree, the published manifest and the byte count are as declared, and verified segments make the directory match. |
| Naming.IdsDiffer | internal/pack/plan.go:131 | Segment identifiers of different counters or kinds differ, beyond four digits too. |
| Naming.IdsInDigits | internal/pack/plan.go:131 | An identifier is its prefix and its number in decimal, in four digits at least. |
| Scanning.WalkDir | internal/pack/plan.go:192-250 | Accepts exactly walks of portable paths, files and directories, and collects them in order. |
| Scanning.FlushPack | internal/pack/plan.go:127-147 | Closes a non-empty pack under the next identifier and lists its entries; an empty one is left alone. |
| Scanning.PlanFiles | internal/pack/plan.go:118-180 | Refuses, as duplicates, exactly the trees in which a file's path clashes with a directory's or another file's up to case; otherwise the plan accounts for every file. |
| Scanning.PartitionIsExact | internal/pack/plan.go:149-179 | Large and small files together are all files, none twice. |
| Scanning.PackCount | internal/pack/plan.go:174-180 | The packs are at most the small bytes over 64 MiB, plus one. |
| Scanning.OneSegmentEach | internal/pack/plan.go:149-180 | Every scanned file is in exactly one segment, alone exactly when it has 1048576 bytes or more. |
| Sorting.StrLeqExactly | internal/pack/plan.go:117-118 | The path order: a text comes first if it begins the other, or is smaller at the first difference. |
| Scanning.PacksInPathOrder | internal/pack/plan.go:117-180 | The packs, one after another, hold the small files in path order. |
| Scanning.AcceptedIsAdmitted | internal/pack/plan.go:65-180 | Comparing lowered names in sorted order finds exactly the names that clash up to case. |
| Scanning.Scan | internal/pack/plan.go:65-188 | Accepts exactly the trees with portable names in which no two roots, no two files and no file and directory clash up to case; packs are non-empty, below 65 MiB and, but for the last, of 64 MiB or more; totals are exact. |
| Assembling.AssembleSegments | internal/client/send.go:117-145 | One segment for each large file and each pack, in whatever order the map yields, described by the size and digest of the very bytes that are uploaded, without a storage path. |
| Assembling.EntriesAre | internal/pack/plan.go:125-180 | An entry is in the plan exactly when it is a directory, a large file's or a packed file's. |
| Acceptance.EntriesApart | internal/client/send.go:189-198 | No two planned entries share a normalized path or a raw segment. |
| Acceptance.PlannedEntry | internal/pack/plan.go:118-250 | A planned entry is a directory of mode 0755 without file fields, or a scanned file with its size, digest and time, of mode 0755 or 0644. |
| Acceptance.ValidExactly | internal/client/send.go:189-198 | The manifest of an accepted tree is valid exactly when the tree has a file, no two directories that differ in case only, and no time before 1970. |
| Submitting.ManifestTotals | internal/protocol/manifest.go:69-89 | The manifest of a plan counts exactly the files and bytes of the scanned tree. |
| Submitting.DirTotals | internal/pack/plan.go:176-187 | The plan counts exactly the directories of the scanned tree. |
| Submitting.OpenTransfer | internal/transfer/advanced.go:26-114 | Opens a transfer exactly for usable, distinct segments within the note and file limits, with one pending row for each of its kind, length and announced digest; usable means a portable name of at most 128 bytes, a known kind and algorithm, no negative length and a well-formed digest. |
| Submitting.PlannedDeclarable | internal/transfer/advanced.go:43-66 | Every segment identifier of a plan is a portable file name, so opening never refuses a planned segment. |
| Submitting.UploadedAgree | internal/transfer/advanced.go:306-368 | What was announced and uploaded agrees with the manifest segment by segment, so the commit's checks pass. |
| Submitting.Submit | internal/client/send.go:150-204 | Opening, uploading and submitting a scanned tree succeeds exactly when it is sendable and within the limits, and otherwise a sendable tree gets the limit's error. |
| Handoff.StagedSupplies | internal/client/send.go:97-145 | What is uploaded is exactly what the manifest declares, digest by digest, and the packs unpack to the declared files. |
| Handoff.BuiltReproduces | internal/client/recv.go:64-69 | A payload built from the plan's entries is the source tree, name for name. |
| Handoff.Deliver | internal/client/recv.go:64-87 | The destination appears only complete and never replaces anything; its files are the declared ones and those a killed earlier attempt left behind, so exactly the declared ones if and only if none was left beside them. |
| Handoff.Transfer | internal/client/recv.go:40-105 | Server materialization, segment serving and client materialization of supplied segments always succeed and build every entry. |
| Handoff.SendAndReceive | internal/client/send.go:78-213 | A tree arrives exactly when the scan accepts it, it is sendable and it is within the server's file, note and byte limits; what arrives has the same paths, bytes, executable bits and times, and the note; a tree that is only too large gets the limit's own error. |
| Uploads.Uploads.Persist | internal/transfer/advanced.go:141-260 | Every durable state a crash may leave is sound and has grown from every earlier one. |
| Uploads.Uploads.FinishPatch | internal/transfer/advanced.go:246-260 | Progress is recorded before the wire bytes are counted, so the count never exceeds the sum of received lengths. |
| Uploads.Uploads.UploadPatch | internal/transfer/advanced.go:141-260 | Wrong offsets and states change nothing; otherwise the acknowledged bytes grow by a prefix of the body, the answer is what is recorded, the transfer's wire bytes grow as much, the segment is complete at its declared length, and an overrun fills it. |
| Uploads.SumTakes | internal/transfer/advanced.go:246-260 | The sum of received lengths can take any segment out first. |
| Uploads.AppendKeepsAuthentic | internal/client/send.go:295-331 | Sending the source from the acknowledged offset keeps the acknowledged bytes a prefix of the source. |
| Uploads.AlwaysAuthentic | internal/transfer/advanced.go:141-260 | Every state a crash may have left held nothing but a prefix of the source. |
| Uploads.ReadsArePrefix | internal/client/send.go:307-316 | However the network cuts the body, the reads are a prefix of it, and all of it when nothing broke. |
| Uploads.UploadOne | internal/client/send.go:295-331 | No error within three attempts means the server has recorded the whole segment, byte for byte; and one clean attempt after any that only broke off means no error. |
| Fetching.RepairGroup | internal/client/recv.go:277-293 | Yields a group exactly when the side request brings enough bytes and they pass the proof. |
| Fetching.FetchVerified | internal/client/recv.go:198-275 | The file is a prefix of the authentic segment at every write; no error exactly when it is the segment; at most three passes and six requests for each missing group; with honest range answers a corrupt stream costs no reconnection and no failure. |
| Fetching.AttemptSegment | internal/client/recv.go:298-350 | One attempt drops an oversized leftover, resumes what is kept and checks the whole; with honest answers it ends in the segment or leaves a start another attempt can complete. |
| Fetching.FetchSegment | internal/client/recv.go:295-352 | No error means the declared length and digest; when honest answers complete what is kept of the file, the download succeeds exactly if the segment is not empty or an empty file is there already, and then yields the segment; without either it always fails. |
| Receiving.FetchAll | internal/client/recv.go:111-169 | Over a network that in the end delivers, every segment of a transfer arrives in a fresh directory exactly when none of them is empty. |
| Receiving.ReceiveSimple | internal/client/recv.go:40-105 | A published simple upload is received, over such a network, exactly when none of its files is empty, and what is built is what its manifest says. |
| Pools.StepKeepsInv | internal/client/recv.go:111-169 | Every move of feeder and workers keeps every offered job accounted for: done, skipped, held, or a failure recorded. |
| Pools.NilMeansAllDone | internal/client/recv.go:111-169 | No error means every job ran and succeeded, unless the caller's context was cancelled and a job was skipped for it. |
| Pools.NoDeadlock | internal/client/send.go:217-292 | In every reachable state before the return some move of the pool itself is possible. |
| Pools.RunsEnd | internal/materialize/materialize.go:253-315 | No interleaving is longer than a bound fixed at the start. |
| Pools.StepDescends | internal/client/send.go:242-291 | Every move lowers the measure that bounds the run. |
| Pools.CancelledParentMayHideJobs | internal/client/recv.go:160-168 | For every number of jobs and every number of idle workers, a transfer pool whose caller cancels before a job is handed out may return no error with nothing done. |
| Pools.HidesJobsExactly | internal/client/recv.go:111-169 | A run that returns no error with a job undone exists exactly for pools that stop early and have jobs. |
| Limiting.IdleIsFull | internal/auth/auth.go:207-213 | Ten idle minutes refill any bucket. |
| Limiting.Limiter.constructor | internal/auth/auth.go:163-171 | A limit that is not positive stands for twenty. |
| Limiting.Limiter.Evict | internal/auth/auth.go:207-213 | Evicting idle buckets changes what no key may spend at any later time. |
| Limiting.Limiter.Allow | internal/auth/auth.go:174-190 | Allows exactly when a whole token is left, and changes what no key may spend, now or later; a new key among more than 4096 drops the buckets idle for ten minutes, and nothing else drops any. |
| Limiting.Limiter.Attempt | internal/api/middleware/middleware.go:50-72 | Asked first and charged a token only for a wrong credential. |
| Limiting.Limiter.Ask | internal/auth/auth.go:174-190 | Asking lets an attempt through exactly when a whole token is left and changes what no key may spend; the attempt stays open until it is answered. |
| Limiting.Limiter.Answer | internal/auth/auth.go:193-205 | Answering charges exactly this key one token, never below zero, if the credential was wrong. |
| Limiting.KeyAsked | internal/auth/auth.go:174-190 | Letting one more attempt through keeps every window of the key within its allowance, for every k that bounds the attempts open at once. |
| Limiting.KeyAnswered | internal/auth/auth.go:193-205 | Answering an attempt, right or wrong, keeps every window of the key within its allowance. |
| Limiting.Limiter.FailuresBounded | internal/auth/auth.go:174-213 | While at most k attempts of a key are open at once, no window of T minutes has more than perMinute + (k - 1) + k * perMinute * T attempts that asked in it and failed. |
| Limiting.Limiter.SequentialFailuresBounded | internal/auth/auth.go:174-213 | Attempts of a key that follow one another fail at most perMinute * (1 + T) times in T minutes. |
| Limiting.Limiter.RecordedBounded | internal/auth/auth.go:174-213 | Counted when they are recorded, the failures of a window are at most k more: recording does not refill the bucket, and attempts open when the window began may be recorded in it. |
| Limiting.ReachRecorded | internal/auth/auth.go:193-205 | That bound too is reached, within one instant, for every limit and every k. |
| Limiting.FailOverlapping | internal/api/middleware/middleware.go:50-72 | For every limit, key and n, one whole token lets through n attempts that ask before the first of them fails, and all n fail. |
| Limiting.ReachAllowance | internal/api/middleware/middleware.go:50-72 | The bound is reached: for every limit, every k and every number of refilled tokens, k attempts at a time fail exactly as often as it allows. |
| Idempotency.KeyTable.BeginIdempotent | internal/api/public/api.go:584-619 | Reserves a key without a row for 86400 seconds; a row with another fingerprint is a conflict, one with a result is replayed with that result's code, one without is still in flight; an unusable key is refused. |
| Idempotency.KeyTable.Complete | internal/store/sqlite/store.go:757-764 | Records the transfer and the code on the key's row, and touches neither its fingerprint nor its expiry. |
| Idempotency.KeyTable.PurgeExpired | internal/store/sqlite/store.go:775-780 | Keeps exactly the rows whose expiry second has not come, as they are. |
| Idempotency.StepKeepsInv | internal/store/sqlite/store.go:698-773 | Every step of prompt runs, crashes, finished-at-startup commits and deleted transfers included, keeps each row owned by one request. |
| Idempotency.AtMostOncePerKey | internal/api/public/api.go:93-192 | While a key's row exists at most one transfer is committed under it, and a later request gets that code, a conflict for another fingerprint, or a refusal, never a second commit. |
| Idempotency.DropTransferKeeps | internal/store/sqlite/store.go:662-676 | Deleting a transfer takes exactly the key rows that name it with it, and these are rows whose request has ended. |
| Idempotency.OutlivedKeyBreaks | internal/api/public/api.go:584-638 | From every state in which a request at work holds a key that is due, the purge is followed by actions that commit twice under one row or leave a foreign code on it. |
| Idempotency.PurgeKeepsExactly | internal/store/sqlite/store.go:775-780 | The purge keeps exactly the rows still running; after it the promise holds whatever follows, exactly when no request at work held a key that was due. |
| Idempotency.OutlivedKeyCommitsTwice | internal/api/public/api.go:584-638 | Such a state is reached from an empty server for every key and fingerprint, and from there the promise is broken. |

## Left out

- HTTP routing and headers, the command line, configuration, logging, progress, the doctor and admin output: no property beyond plumbing.
- BLAKE3, Bao, SHA-256, argon2, tar, zstd and JSON internals: see the assumptions; building verification trees is reduced to recreating the staging directory.
- Fsync, power loss, torn writes and errors of the database or the filesystem that are only logged.
- Sealing of the payload by mode bits, disk statistics, admission watermarks, upload and download slots: platform calls.
- The TTL and disk space checks of `CreateTransfer`, TTL parsing, code formatting, error texts, `sanitizeUploadName`: a session is given the sanitized name.
- Path lowering covers ASCII letters only, where the code lowers all of Unicode.
- Unreadable files, files that change while they are read, and the resume session file of the sender.
- Times of folders that no entry declares, and file modes beyond the executable bit.
- Segment rows are part of their transfer's row; wire bytes are modelled with the upload loop, not with the lifecycle.
- Failed reads and writes of destination files during a download, and the choice of a unique destination name.
- Materializing.Run: verification runs in sequence here; its concurrency is the pool machine, so which of several failures is reported is not modelled.
- Materializing.Run: the file operations of one materialization enter the service's history as one step; a crash between them leaves some other directory under a VERIFYING row, which the lifecycle allows.
- SimpleUploads.SimpleSession.AddFile: a part's writes enter the history as one step, for the same reason.
- Fetching.FetchVerified: existing whole groups are taken to be authentic, as the code takes them; a mixed file is caught by materialization. The alignment of the stream after a failed repair is not claimed.
- Cleaning.Sweep: the purge of idempotency keys is modelled with the keys, and a sweep is assumed not to meet an operation in progress on a transfer it deletes.
- Idempotency.AtMostOncePerKey: a session that releases its key after a failed publish and dies before it discards its row may still be committed at startup; that commit belongs to no row and is not modelled.
- Handoff.SendAndReceive: the identifiers of a resumed session and the pool that uploads are left to their own modules; each upload is taken to come to its end.
- Receiving.ReceiveSimple: the destination starts empty; leftovers of an earlier attempt are covered segment by segment (Fetching.FetchSegment) and at the rename (Handoff.Deliver).
- Uploads.UploadOne: how the transfer moves on while an upload runs is left to the other operations; the state only has to accept uploads when a body arrives.
