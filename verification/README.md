# Verification model of Cassetta

Cassetta hands bundles of files between agents through a filesystem. This project models the
parts in which several operations share state, and proves what they keep together:

- **Bundle store** (`Tree`, `BundleTree`, `Storage`, `BundleRuns`, `ReaperRuns`, `RunSteps`,
  `Namespaces`, `StoreTraps`, `StrayNames`, `Reaper`).
  A tree is a map from paths (sequences of segments) to directories and files. Each operation is a
  function on trees; the classes `FilesystemBackend` and `FilesystemBundleWriter` change a tree in
  place, loop by loop as the source does, and are proved against those functions. Runs are sequences of
  steps with a clock, crashes at every intermediate point of an open, a write and a commit, lost
  writers, deletions and sweeps. File names are followed part by part as the operating system does, `..`
  included; a name that stays inside its bundle and one that climbs out are told apart on its text.
  `RunSteps` says of every step which files, directories, writers and modification times it changes, and
  `Namespaces` on the paths themselves where bundles begin. `StoreTraps` holds the runs in which a missing precondition loses or nests a bundle, `StrayNames` what
  a name that climbs does.
- **Uploads** (`Manifest`, `Limits`, `BundleContents`, `Upload`, `UploadBridge`, `BatchUpload`,
  `UploadProperties`, `Streaming`). Manifest validation, phase one with its caps, the stream bridge, the
  tar and inline uploads. `UploadBridge` runs the event loop, the bounded queue and the parser thread
  together and finds exactly the bodies for which no schedule hangs; an upload that ends is all or
  nothing, with exact read-back.
- **Claims** (`ClaimStorage`, `ClaimProtocol`, `ClaimTraps`, `ClaimSweep`, `ClaimRefinement`). Locks and sidecars with an
  uninterpreted digest and stops after every file operation of an issue; picks, downloads, accounting
  and sweeps interleaved at their awaits; one whole claim sweep as the loop it is, and the proof that the
  interleaved one, left alone, comes to the same.
- **Signing keys** (`KeyRotation`). Two slots, a lazily dropped secondary, schedules of rotations and
  lookups, and token verification.
- **Companions** (`DownloadUrl`, `Latest`, `Broadcast`). The URL printer and parser down to UTF-8 and
  percent-encoding, the choice of "latest" against the sorted listing, the broadcast loop.
- `Wrappers`, `Strings` and `Sorting` hold bytes and results, code-point comparison, slash-separated
  names, and a stable sort.

What is a parameter: the clock, the digest, token identifiers, the outcome of disk operations
(`Disk`, `Outcome`), what policies and alias resolution answer, how a timestamp's text is parsed, and
every scheduling choice (which step comes next, how many producer calls fit before a read, and, where a
request may hang, whether and where it does).

What is assumed: one process; what runs between two awaits is atomic; the clock does not go back;
`rmtree` removes all or nothing; a truncated JSON document does not parse; signatures are not forged.

Where the code and its own prose differ, the model follows the code:

- An inline upload whose payload repeats a name keeps the last one (`mcp_server.py:523-533`), although
  its documentation asks for exactly one per manifest entry (`UploadProperties.Decoded`).
- `_looks_like_bundle_dir` says names are stored flat (`storage.py:359-364`), but names with slashes are
  accepted; `StoreTraps.NestedNamesDefeatTheReaper` is what follows.
- The character check of names ends in `$`, which also matches before one trailing newline
  (`Manifest.MatchesCharset`).
- The signers use the boot key after a rotation too (`downloads.py:125`);
  `KeyRotation.FreshTokensAreRefused` is what follows.
- An error other than "file exists" when the claim sidecar is created leaves the lock behind
  (`claim_storage.py:83-92`); `ClaimStorage.FailedCreateLeaksTheLock` is what follows.
- At most one live pick credential per path holds because nothing suspends between reading the manifest
  and issuing the claim; `ClaimTraps.SuspendedPickGivesTwoLiveCredentials` is what a suspending limits
  policy would bring.
- A multipart part of a broadcast names its file as it likes (`agents.py:184-189`), and `write_file` follows
  that name out of the bundle (`storage.py:291`). The promises of `Broadcast` are for names that stay inside;
  `StrayNames.StrayPartReachesAnotherBundle` is what another name does.
- The pump puts into a bounded queue on the event loop's own thread (`upload.py:175-182`), which the parser's
  writes and the abort need too. An upload whose parser waits or leaves while more is to come than the queue
  takes can stop for ever, neither committed nor rolled back: `UploadBridge.HangIsReachable`. The size of the
  chunks is the server's choice, so nothing in the manifest prevents it.

## Model

| member | source | states |
|---|---|---|
| Storage.FilesystemBackend.LooksLikeBundleDir | src/cassetta/backends/filesystem/storage.py:356-375 | true exactly for a directory with a manifest, or with files and no directory, whatever order its entries come in |
| Storage.FilesystemBackend.FindDescendantBundle | src/cassetta/backends/filesystem/storage.py:378-387 | finds some directory strictly below the root that directly holds a file, and nothing exactly if there is none |
| Storage.FilesystemBackend.CheckBundlePathCollision | src/cassetta/backends/filesystem/storage.py:238-275 | reports a shadow child exactly if an ancestor below the namespace root looks like a bundle, and otherwise a shadow parent exactly if the path is below a namespace root, is a directory, and some directory beneath it directly holds a file |
| Storage.FilesystemBackend.CollisionKind | src/cassetta/backends/filesystem/storage.py:390-399 | a failed mkdir is a shadow parent exactly if the directory exists and is not empty |
| Storage.FilesystemBackend.OpenBundleWrite | src/cassetta/backends/filesystem/storage.py:149-157 | succeeds exactly if no ancestor blocks, nothing is at the path and no file is on the way; creates the missing directories and a fresh writer; on an error the tree is unchanged and the error is the one for what is in the way |
| Namespaces.InboxRefusal | src/cassetta/backends/filesystem/storage.py:238-275 | an open of `inbox/r/leaf/...` succeeds exactly if nothing from `inbox/r/leaf` down to the path looks like a bundle, nothing is at the path and no file is on the way; the first of these is a shadow child |
| Namespaces.NamespaceRefusal | src/cassetta/backends/filesystem/storage.py:238-275 | the same from `namespace/leaf` on in any other namespace |
| Namespaces.BundlesRefuse | src/cassetta/backends/filesystem/storage.py:262-270 | so a committed bundle, and a directory of files alone, refuses every path beneath it as a shadow child |
| Namespaces.StrayFilesDoNotBlock | src/cassetta/backends/filesystem/storage.py:238-252 | whatever files lie directly in `inbox/r`, `inbox` or another namespace, a free first-level path can be opened |
| Namespaces.NamespaceRootsAreNotBlocked | src/cassetta/backends/filesystem/storage.py:254-257 | at or above that level only what is at the path and on the way matters |
| Storage.FilesystemBackend.ReadBundleMeta | src/cassetta/backends/filesystem/storage.py:159-170 | gives the manifest exactly if `meta.json` is a file that parses |
| Storage.FilesystemBackend.OpenBundleFileRead | src/cassetta/backends/filesystem/storage.py:172-180 | nothing from a bundle that is not committed; for a name that leads to a place in the tree, the file's content exactly if the directories on the way are there and a file is at that place |
| Storage.FilesystemBackend.ListBundles | src/cassetta/backends/filesystem/storage.py:182-228 | each reported directory once, in path order, with its facts; those are exactly the ones the walk reaches that hold a manifest or, with orphans included, directly hold a file |
| Storage.ListingSays | src/cassetta/backends/filesystem/storage.py:198-228 | that is: the references name exactly the reached directories that directly hold a file, or only those of them with `meta.json`; each tells whether that is there and the directory's time; paths ascend as text |
| Storage.FilesystemBackend.DeleteBundle | src/cassetta/backends/filesystem/storage.py:230-234 | removes exactly the subtree at the path, or reports that no directory is there |
| Storage.FilesystemBundleWriter.WriteFile | src/cassetta/backends/filesystem/storage.py:286-302 | stores the whole source where the name leads or fails; fails exactly on an empty or repeated name, an obstructed way or a failing disk, and the error says which; if the name stays inside, nothing outside the bundle directory changes |
| Storage.FilesystemBundleWriter.StoreAt | src/cassetta/backends/filesystem/storage.py:291-300 | succeeds exactly if no file is on the way, the name ends in a file name and not at a directory, and the disk holds; even a failing one leaves all outside the bundle as it was if the parts do not climb |
| Storage.FilesystemBundleWriter.MakeParents | src/cassetta/backends/filesystem/storage.py:292 | makes exactly the directories that following the parts goes through, `..` included, and stops at a file |
| Storage.FilesystemBundleWriter.CopyInto | src/cassetta/backends/filesystem/storage.py:293-300 | the chunk loop writes exactly a prefix of the source, all of it on a healthy disk |
| Storage.FilesystemBundleWriter.Commit | src/cassetta/backends/filesystem/storage.py:304-348 | succeeds exactly if the declared names are non-empty, distinct and the written ones, each with its written size, and the manifest can be put in place; otherwise the error is one that applies |
| Storage.FilesystemBundleWriter.Abort | src/cassetta/backends/filesystem/storage.py:350-353 | removes the bundle directory unless the writer committed |
| BundleTree.WriteFrame | src/cassetta/backends/filesystem/storage.py:291-300 | a write adds exactly the target and the missing directories on the way the name goes |
| BundleTree.EndsInsideIff | src/cassetta/backends/filesystem/storage.py:291 | parts that climb lead back to or below the directory exactly if they go down again through the segments they climbed |
| BundleTree.StaysInsideIff | src/cassetta/backends/filesystem/storage.py:291 | unless the name spells the directory's own last segment, it leads to a place inside the directory if and only if it is relative and its `..` parts never climb above the start |
| StrayNames.EveryFileIsInReach | src/cassetta/backends/filesystem/storage.py:291-293 | from any bundle directory some name with `..` leads to any file of the tree whose path is plain, and a write there goes through |
| StrayNames.StrayPartReachesAnotherBundle | src/cassetta/routes/agents.py:79 | one part of a bundle being written can replace a file of another committed bundle, and neither the commit nor the abort brings it back, so the abort is no rollback |
| BundleTree.CommitFrame | src/cassetta/backends/filesystem/storage.py:327-337 | a commit adds exactly `meta.json`, and takes away a file of the temporary name |
| BundleRuns.NextKeepsInv | src/cassetta/backends/filesystem/storage.py:149-353 | every step of an orderly run, interrupted ones included, keeps committed and live bundles an antichain below the namespace roots |
| BundleRuns.OrderlyIsExact | src/cassetta/backends/filesystem/storage.py:149-353 | and exactly the orderly steps do: an open, a delete or a write that happens keeps the invariant if and only if the caller did its part |
| BundleRuns.BundlesNeverNest | src/cassetta/backends/filesystem/storage.py:238-275 | after any run whose opens are of at least three segments in the inbox and two elsewhere and not beneath a live writer, without deletes of a directory that a live writer is in, and without names that climb or put a `meta.json` beneath the top of the bundle, no bundle lies inside another |
| BundleRuns.RemovingOneKeepsTheOthers | src/cassetta/backends/filesystem/storage.py:230-234 | then removing one bundle leaves every node of every other bundle as it was |
| RunSteps.OpenMakes | src/cassetta/backends/filesystem/storage.py:149-157 | an open adds exactly the directories down to its path, and a writer of this time |
| RunSteps.MakeParentsMakes | src/cassetta/backends/filesystem/storage.py:152 | cut short, some of the first of them |
| RunSteps.WriteMakes | src/cassetta/backends/filesystem/storage.py:286-302 | a write adds or replaces exactly its file, and adds the directories on its way |
| RunSteps.WriteParentsMakes | src/cassetta/backends/filesystem/storage.py:292 | cut short, some of the first of them |
| RunSteps.CommitMakes | src/cassetta/backends/filesystem/storage.py:327-337 | a commit replaces exactly `meta.json`, takes the temporary file away and ends the writer |
| RunSteps.WriteTmpMakes | src/cassetta/backends/filesystem/storage.py:327-331 | cut short, it leaves the temporary file |
| RunSteps.AbortRemoves | src/cassetta/backends/filesystem/storage.py:350-353 | an abort takes exactly the subtree, and the writer |
| RunSteps.DeleteRemoves | src/cassetta/backends/filesystem/storage.py:230-234 | a deletion takes exactly the subtree |
| RunSteps.LosingAWriterLeavesItsFiles | src/cassetta/backends/filesystem/storage.py:279-284 | a lost writer, and a crash, leave every file and nobody to remove them |
| RunSteps.TickAndSweep | src/cassetta/gc.py:53-96 | a sweep passes over `inbox` and then `store`, and takes no writer away |
| RunSteps.MkdirsTouches | src/cassetta/backends/filesystem/storage.py:152-154 | a directory gets the time of the step exactly if an entry of it comes or goes: when directories are made |
| RunSteps.PutFileTouches | src/cassetta/backends/filesystem/storage.py:293 | when a file is created; not when one is overwritten |
| RunSteps.RemoveTouches | src/cassetta/backends/filesystem/storage.py:234 | when a subtree is removed |
| RunSteps.RenameTouches | src/cassetta/backends/filesystem/storage.py:332 | when the manifest is renamed into place |
| ReaperRuns.NextKeepsFlat | src/cassetta/backends/filesystem/storage.py:356-375 | with flat names, every step keeps: no directory directly holds both a file and a directory |
| ReaperRuns.SweepIsSafe | src/cassetta/gc.py:53-96 | after any run with flat names and no writer as old as the minimum age, a sweep leaves every node of every bundle; of each orphan listed in `inbox` or `store` it takes the whole if the time since its last change is at least the minimum age, and leaves the whole if it is less |
| ReaperRuns.ListingIsTheSimpleOne | src/cassetta/backends/filesystem/storage.py:198-228 | after any such run the listing from any prefix is exactly the directories below it that hold a manifest |
| ReaperRuns.FlatTreesHideNothing | src/cassetta/backends/filesystem/storage.py:203-226 | the reason: without mixed directories the pruning hides no bundle |
| ReaperRuns.StoreOrphanStays | src/cassetta/gc.py:61-72 | sweeping `inbox/` first changes neither what `store/` lists nor its times |
| Reaper.Sweep | src/cassetta/gc.py:53-96 | the two loops leave exactly the tree without the orphans that were listed and old enough |
| StoreTraps.SweepLosesBundleIff | src/cassetta/gc.py:72-79 | a sweep of a namespace takes a committed bundle exactly if an aged orphan is listed above it |
| StoreTraps.OpeningBeneathAWriterLosesABundle | src/cassetta/backends/filesystem/storage.py:369-375 | an empty in-flight directory does not block a bundle beneath it; aborting the outer upload removes the committed inner one |
| StoreTraps.DeletingALiveWriterNestsBundles | src/cassetta/backends/filesystem/storage.py:291-292 | after its directory was deleted a writer recreates it inside a bundle opened meanwhile |
| StoreTraps.NestedNamesDefeatTheReaper | src/cassetta/backends/filesystem/storage.py:217-226 | a reachable run in which a crashed upload with a nested name hides a later committed bundle and the sweep removes it |
| Manifest.ValidateManifest | src/cassetta/auth/manifest_validation.py:49-74 | accepts exactly if every name passes, none is reserved or repeated, and no adjacent pair collides; otherwise gives the first offending entry's reason, or a pair that really collides |
| Manifest.VerdictIs | src/cassetta/auth/manifest_validation.py:30-46 | a name alone is empty, or absolute, or has two dots between slashes or backslashes, or has a character other than letters, digits and five marks (one newline at the end aside), or is accepted: exactly one, in this order |
| Manifest.PathPassesIff | src/cassetta/path_validation.py:15-30 | the same of a path with whatever characters are configured |
| Manifest.PassingStaysInside | src/cassetta/path_validation.py:15-30 | a path that passes is relative and climbs nowhere, whatever characters are configured, backslashes included |
| Manifest.SortedNames | src/cassetta/auth/manifest_validation.py:70 | strictly increasing, with exactly the elements of the set |
| Manifest.AdjacentCheckFindsIff | src/cassetta/auth/manifest_validation.py:69-74 | the adjacent check finds a collision exactly if some colliding name has no name that extends it by a character below the slash |
| Manifest.CompleteAboveSlash | src/cassetta/auth/manifest_validation.py:69-74 | so it is complete if no name has a character that sorts below the slash |
| Manifest.MissedCollision | src/cassetta/auth/manifest_validation.py:69-74 | and otherwise it is not: `a`, `a.b`, `a/c` pass |
| Limits.PrepareSendInit | src/cassetta/send_init.py:143-288 | a token is minted exactly if the manifest and the leaf path pass, the message is addressed to some recipient, that one may be written to, and the caps are kept; it carries the manifest unchanged, that recipient, the path in its inbox, and the inline mode only if allowed and within the threshold; a refusal is by the first check that fails. Addressed: to `to` itself without a resolver or, free of colons, unresolved; else to what follows `inbox/`, without slashes at the end, in the first target that is not the sender's own |
| Limits.AddressedIff | src/cassetta/send_init.py:185-200 | the code finds exactly the recipient of that description |
| Limits.PrefixIsItsRecipient | src/cassetta/send_init.py:135-137 | one target `inbox/name` with any number of slashes after it is addressed to `name` and nobody else |
| Limits.ModeIff | src/cassetta/limits.py:63-100 | a manifest gets a mode exactly if count, each size and total keep their caps, and the inline one exactly if the total keeps the threshold too |
| Limits.RefusalNames | src/cassetta/limits.py:63-96 | a refusal names the first broken cap, its limit and what was observed: the count, the first size above the cap, or the total |
| Limits.NoneLeftIff | src/cassetta/send_init.py:195-198 | no target is left exactly if the resolver gave none, or several that all are the sender's own |
| Limits.NoneOver | src/cassetta/limits.py:75-85 | the early-return scan finds nothing exactly if no size is above the cap |
| Limits.DecisionBindsTotal | src/cassetta/limits.py:87-100 | a decision for a mode means the declared total and count are within the caps, and the mode is the one of the download |
| Limits.CapsBindRealBytes | src/cassetta/defaults/default_limits.py:91-110 | whatever sizes were declared, negative ones included, a manifest that passed and then commits holds at most the capped bytes and files, and is served inline exactly if it was classified inline |
| BundleContents.CanStoreIff | src/cassetta/backends/filesystem/storage.py:291-294 | in a bundle that holds exactly some files, a name that stays inside can be stored exactly if it ends in a file name, passes no stored file, and does not end where it or a stored name passes |
| BundleContents.StoreHolds | src/cassetta/backends/filesystem/storage.py:291-300 | after the write of a name that stays inside, the bundle holds exactly those files and the new one |
| BundleContents.NextStorable | src/cassetta/backends/filesystem/storage.py:286-302 | for a name that stays inside, a write succeeds exactly if the list of names written so far stays storable |
| BundleContents.CanCommitIff | src/cassetta/backends/filesystem/storage.py:328-337 | the manifest can be put in place exactly if no name needs a directory where it or its temporary file goes |
| BundleContents.ReadsBackIff | src/cassetta/backends/filesystem/storage.py:172-180 | if no two names lead to one place, a committed file reads back with its exact bytes if and only if its place is neither `meta.json` nor `.meta.json.tmp` |
| BundleContents.CanonicalPlaces | src/cassetta/backends/filesystem/storage.py:291 | distinct names without empty, `.` or `..` parts all stay inside and lead to distinct places |
| BundleContents.AbortRollsBack | src/cassetta/backends/filesystem/storage.py:350-353 | an abort restores the tree from before the open, up to parent directories |
| Upload.EntryError | src/cassetta/routes/upload.py:130-159 | no error exactly if the entry is a regular file, declared, of its declared size in header and body, and within the cap |
| Upload.WriteItem | src/cassetta/routes/upload.py:160-164 | one write of a name that stays inside succeeds exactly if the items up to it are storable and the disk is healthy |
| Upload.PassingNamesInside | src/cassetta/auth/manifest_validation.py:49-74 | every name of a manifest that was validated stays inside, so what holds for such names holds for every upload with a signed manifest |
| Upload.StreamTarIntoWriter | src/cassetta/routes/upload.py:100-172 | if every write it asks for is served, it returns exactly if all entries pass, the archive is complete, every declared name occurred and all could be stored; then exactly these items are stored and the count is their bytes; otherwise the error is that of the first entry that does not pass or cannot be stored, or of the archive's end; if a write is not served, exactly the items before it are stored |
| Upload.FirstMissing | src/cassetta/routes/upload.py:168-171 | the alphabetically first declared name that did not occur, and none exactly if all did |
| Upload.CommitOrAbort | src/cassetta/routes/upload.py:389-405 | commits exactly if the declared rows are the written ones and the manifest has room; otherwise the tree is as before the open and the error is one that applies |
| Upload.Settle | src/cassetta/routes/upload.py:276-405 | the end of every upload: committed exactly if everything was stored, is what was declared and leaves room for the manifest; rolled back otherwise |
| Upload.StoreItems | src/cassetta/mcp_server.py:563-569 | items whose names stay inside are stored one by one, all of them exactly if they are storable and the disk is healthy |
| Upload.CompleteItems | src/cassetta/mcp_server.py:563-603 | from an open writer: such items are committed with exact read-back exactly if they are storable and declared, or rolled back |
| BatchUpload.CompleteUpload | src/cassetta/routes/upload.py:256-405 | from an open writer, if the bridge does not hang: committed with exact read-back, or rolled back; if it does: exactly what was stored until then is there, uncommitted |
| BatchUpload.UploadBundle | src/cassetta/routes/upload.py:240-405 | under any schedule of the bridge: it never ends only at a wait where the rest of the body does not fit the queue, so it ends if the body fits; if it ends, all or nothing, with the exact condition for a commit, what the tree then holds, no file above the per-file cap (100 MiB where none is set), and otherwise the tree unchanged up to empty parents and an error that names a fault that is there; if it never ends, the bundle is left open with exactly the items stored so far |
| BatchUpload.OversizeIsRefused | src/cassetta/routes/upload.py:117-149 | an archive of entries as declared, the first oversize one after others that were stored, ends in `per_file_max` with the configured limit, or 100 MiB if there is none, and that entry's size |
| BatchUpload.FirstFaultCounts | src/cassetta/routes/upload.py:128-164 | in general the first entry that does not pass decides about the error, whatever comes after it |
| Upload.LastRowCounts | src/cassetta/routes/upload.py:114 | of several manifest rows with one name the last one is compared with |
| UploadBridge.HangsOnlyIfOverfull | src/cassetta/routes/upload.py:160-182 | the loop, the queue and the parser can all be stuck only where the parser waits for a write or has left, with more of the body to come than the queue takes |
| UploadBridge.HangIsReachable | src/cassetta/routes/upload.py:265-276 | and at every such write, and at the end, some schedule of the loop and the thread is stuck |
| UploadBridge.NoScheduleHangsIff | src/cassetta/routes/upload.py:160-276 | so no schedule hangs if and only if at every wait the items not yet taken fit the queue |
| UploadBridge.AlwaysEndsIff | src/cassetta/routes/upload.py:160-276 | and then every run can be carried on to its commit or abort; otherwise some run stops for ever at a write or at the end |
| UploadBridge.PossibleIff | src/cassetta/routes/upload.py:160-276 | a request can stop at a write, or after the last one, exactly if the rest of the body does not fit the queue there; and it can end exactly if its parser raises, which cancels the pump, or the rest behind the archive fits |
| UploadBridge.ShortBodiesFit | src/cassetta/streaming.py:19-46 | in particular nothing hangs if the non-empty chunks and the end mark fit the queue together |
| UploadBridge.LongPaddingNeverEnds | src/cassetta/routes/upload.py:265-276 | an accepted archive followed by more chunks than the queue takes never ends, whatever the schedule |
| UploadBridge.CancelledUnstarted | src/cassetta/routes/upload.py:276-282 | a pump cancelled before it ran puts nothing, so the handler goes on at once |
| UploadBridge.RunsAreShort | src/cassetta/routes/upload.py:160-182 | no schedule goes on for ever, so to be stuck is the only way not to end |
| Upload.TarCommits | src/cassetta/backends/filesystem/storage.py:304-325 | what the stream accepted and the writer stored is what the commit finds declared, if the manifest is non-empty with distinct names |
| UploadProperties.AcceptanceIsPermutation | src/cassetta/routes/upload.py:114-172 | for distinct manifest names, acceptance without repeats is exactly: the (name, size) pairs are a permutation of the manifest's, each entry regular, whole and within the cap |
| UploadProperties.UploadIsPermutation | src/cassetta/routes/upload.py:240-405 | on a healthy disk the condition under which an upload that ends commits is exactly: the path is free, the layout allows the names, and the complete archive is a permutation of the manifest |
| UploadProperties.LayoutIffStorable | src/cassetta/backends/filesystem/storage.py:291-294 | whether a set of names can be stored and committed depends on the names alone, not on their order |
| UploadProperties.CommittedWithinCaps | src/cassetta/routes/upload.py:166-172 | a committed upload's byte count is the sum of the manifest's sizes and its entry count the manifest's, so the signed caps bind both, and every file in it keeps the per-file one |
| UploadProperties.TotalOfPermutation | src/cassetta/routes/upload.py:166-172 | permuted manifests have one total |
| UploadProperties.DecodePayload | src/cassetta/mcp_server.py:520-538 | accepted exactly if every payload file is declared, decodable and of its size, and every declared name occurs; of repeated names the last counts; otherwise the first failing file's error, or a declared name that is missing |
| UploadProperties.PayloadError | src/cassetta/mcp_server.py:527-532 | no error exactly if the file is declared, decodable and of its declared size |
| UploadProperties.SendInline | src/cassetta/mcp_server.py:520-603 | all or nothing for the inline upload: the exact condition, the exact content, or the tree as it was |
| UploadProperties.InlineCommits | src/cassetta/mcp_server.py:563-579 | what an accepted payload stores is what the commit finds declared |
| Streaming.CarriedByBoth | src/cassetta/streaming.py:38-46 | queued and coming chunks carry the concatenation of their bytes, up to the end mark |
| Streaming.EmptyChunkCarriesNothing | src/cassetta/streaming.py:40-41 | leaving out empty chunks changes nothing |
| Streaming.SyncStreamReader.Feed | src/cassetta/streaming.py:38-42 | blocks exactly on a full queue; otherwise appends the chunk unless it is empty; the bound is kept |
| Streaming.SyncStreamReader.Close | src/cassetta/streaming.py:44-46 | blocks exactly on a full queue; otherwise appends the end mark |
| Streaming.SyncStreamReader.Get | src/cassetta/streaming.py:64 | the next chunk of the stream, waiting for the producer, and nothing exactly if the producer ends without bytes or a close |
| Streaming.SyncStreamReader.Read | src/cassetta/streaming.py:48-68 | for every schedule: exactly the next min(n, remaining) bytes, the rest for negative n, nothing for zero without touching the queue; what remains is the rest; it waits forever exactly if the stream is short and never closed |
| Streaming.SyncStreamReader.ReadEach | src/cassetta/streaming.py:48-68 | a sequence of reads gives the pieces of the one byte string, which with what remains add up to it |
| Streaming.NothingAfterTheEnd | src/cassetta/streaming.py:59-63 | after a short read, or one for everything, every later read is empty |
| Streaming.SameBytesSameReads | src/cassetta/streaming.py:19-68 | two ways of cutting the same bytes into chunks, under any two schedules, give the same reads |
| ClaimStorage.FilesystemClaimStorage.Issue | src/cassetta/backends/filesystem/claim_storage.py:61-103 | keeps the lock invariant wherever it stops; issued exactly if neither lock nor sidecar was there and nothing failed; leaves no trace otherwise unless it died or the sidecar could not be created |
| ClaimStorage.FilesystemClaimStorage.Get | src/cassetta/backends/filesystem/claim_storage.py:105-110 | found exactly if the sidecar is there and parses |
| ClaimStorage.FilesystemClaimStorage.MarkFetched | src/cassetta/backends/filesystem/claim_storage.py:112-143 | adds the name to the claim's progress once, or changes no sidecar and no lock |
| ClaimStorage.FilesystemClaimStorage.Delete | src/cassetta/backends/filesystem/claim_storage.py:145-155 | removes the sidecar and, if it parses, the lock of its path's digest |
| ClaimStorage.FilesystemClaimStorage.IterAll | src/cassetta/backends/filesystem/claim_storage.py:157-176 | exactly the sidecars that parse, each once, in any order |
| ClaimStorage.FilesystemClaimStorage.IterActiveByBundlePath | src/cassetta/backends/filesystem/claim_storage.py:178-192 | exactly the paths of claims younger than the limit, each with the jti of such a claim |
| ClaimStorage.IssueKeepsInv | src/cassetta/backends/filesystem/claim_storage.py:61-103 | every state an issue can leave behind keeps: each claim owns the lock of its digest |
| ClaimStorage.DeleteKeepsInv | src/cassetta/backends/filesystem/claim_storage.py:145-155 | so does a completed delete, even when digests collide |
| ClaimStorage.RunKeepsInv | src/cassetta/backends/filesystem/claim_storage.py:61-155 | so does any run of calls, stopped anywhere inside an issue or a mark |
| ClaimStorage.AtMostOneClaimPerPath | src/cassetta/backends/filesystem/claim_storage.py:61-71 | after any such run at most one well-formed sidecar exists per digest, hence per path |
| ClaimStorage.ListedPathsAreRefused | src/cassetta/backends/filesystem/claim_storage.py:178-192 | every path with a claim is refused by issue, for any jti |
| ClaimStorage.CleanRunsAreOneToOne | src/cassetta/backends/filesystem/claim_storage.py:61-155 | locks and sidecars correspond one to one throughout a run exactly if every issue in it took its full effect or none, that is, if none crashed in between or was refused its sidecar |
| ClaimStorage.MoveKeepsOneToOneIff | src/cassetta/backends/filesystem/claim_storage.py:61-155 | the same for one call: given the correspondence, it is kept exactly by deletes, marks, and issues that took full effect or none |
| ClaimStorage.FailedCreateLeaksTheLock | src/cassetta/backends/filesystem/claim_storage.py:83-92 | an error other than "file exists" on the sidecar leaves a lock without a sidecar, and the path is refused from then on |
| ClaimStorage.InterruptedDeleteAllowsASecondClaim | src/cassetta/backends/filesystem/claim_storage.py:151-155 | why deletes must not be interrupted: between its two removals the path can be claimed twice |
| ClaimProtocol.StepKeepsInv | src/cassetta/routes/download.py:391-420 | every step of every interleaving keeps the protocol's invariant |
| ClaimProtocol.NoBundleIsLost | src/cassetta/gc.py:138-194 | in every run a bundle disappears only by a deletion from outside, or after every name of its manifest was streamed in full under one claim on its path |
| ClaimProtocol.ProgressIsTheClaimsOwn | src/cassetta/routes/download.py:391-410 | a claim's progress changes only by a stream under its own credential, and by that one name |
| ClaimProtocol.StreamsBeganLive | src/cassetta/routes/download.py:190-330 | whatever was streamed in full was asked for before, under a credential that had been handed out, was not expired, and names that file of a bundle that was there |
| ClaimProtocol.AnsweredPickIsAClaim | src/cassetta/backends/filesystem/claim_storage.py:61-103 | an answered pick has a new sidecar of this time with nothing fetched, and a lock that was free |
| ClaimProtocol.MintsSayWhatIsThere | src/cassetta/downloads.py:116-141 | a credential names the files that are there and the whole second of its time; a pick is of an inbox bundle and not out before its claim is |
| ClaimProtocol.BundlesChangeBy | src/cassetta/gc.py:138-194 | only commits add a bundle; only deletions from outside and the steps of sweeps and accountings take one |
| ClaimProtocol.ReleaseMeansDeadCredential | src/cassetta/gc.py:138-221 | a claim is dropped only if its bundle is gone or its credential has reached its expiry (section 4.1.4 of RFC 7519) |
| ClaimProtocol.ExpiredClaimIsDead | src/cassetta/downloads.py:116-141 | because the expiry counts from a whole second that is not after the claim's creation |
| ClaimProtocol.AtMostOneLiveCredential | src/cassetta/backends/filesystem/claim_storage.py:61-71 | if claims are issued only while their bundle is there, one path has at most one live pick credential at any time |
| ClaimProtocol.StepKeepsOneLiveIff | src/cassetta/backends/filesystem/claim_storage.py:61-71 | given that, a step keeps it exactly if it does not answer a pick with a live credential for a bundle that is gone while another live one for its path is out |
| ClaimProtocol.OneLiveThroughoutIff | src/cassetta/backends/filesystem/claim_storage.py:61-71 | so a run has at most one live pick credential per path throughout if and only if it has no such answer |
| ClaimTraps.SuspendedPickGivesTwoLiveCredentials | src/cassetta/downloads.py:116-141 | without that condition a reachable run has two live credentials for one path |
| ClaimSweep.HandleClaim | src/cassetta/gc.py:140-221 | drops a claim exactly if it is of unknown age, or expired and its manifest can be read or is gone; deletes the bundle exactly if it is an inbox bundle that an expired claim covers |
| ClaimSweep.SweepClaims | src/cassetta/gc.py:107-221 | whatever order the claims come in: exactly those claims, their locks and those bundles are gone |
| ClaimSweep.OnlyYoungClaimsAreLeft | src/cassetta/gc.py:117-122 | with readable manifests exactly the claims younger than the limit are left |
| ClaimSweep.BundleGoesIff | src/cassetta/gc.py:175-184 | a bundle goes exactly if it is in the inbox and some expired claim covers its whole non-empty manifest |
| ClaimSweep.IncompleteIsReleased | src/cassetta/gc.py:207-221 | an expired incomplete claim leaves its bundle there, unclaimed, and open to a new claim |
| ClaimSweep.ProtocolDecidesAlike | src/cassetta/gc.py:140-209 | the sweep steps of the interleaved protocol decide about each claim as this loop does; what they then do is `ClaimRefinement` |
| ClaimRefinement.SweepRefinesTheLoop | src/cassetta/gc.py:138-221 | from any state of the protocol, a sweep that nothing interrupts once it has listed the claims ends, and leaves exactly the claims, locks and bundles that this loop leaves, whatever manifests resist reading and bundles resist deletion, and all else as it was |
| ClaimRefinement.SweepStepTakes | src/cassetta/gc.py:175-209 | among the steps of other tasks, each of its steps takes exactly one bundle, or exactly one claim and the lock it names, or nothing |
| ClaimRefinement.AccountingEnds | src/cassetta/routes/download.py:391-420 | the accounting of a streamed file, carried to its end: nothing without a claim; with one the name is noted once, and if all names then are, exactly the bundle, the claim and its lock are gone |
| ClaimRefinement.DownloadEnds | src/cassetta/routes/download.py:190-420 | a whole download that nothing interrupts: the stream is noted; for an inbox bundle with a claim exactly the progress, or the bundle, the claim and its lock change, judged by the manifest at its start; else nothing |
| ClaimRefinement.CompletingEnds | src/cassetta/routes/download.py:413-420 | the completion alone: the credential's bundle, its claim and its lock |
| ClaimSweep.SecondSweepChangesNothing | src/cassetta/gc.py:138-221 | a second sweep at the same time changes neither claims nor bundles |
| ClaimSweep.SweepKeepsOneToOne | src/cassetta/gc.py:138-221 | the sweep keeps locks and sidecars one to one |
| KeyRotation.JWTKeySlots.ResolveSecondary | src/cassetta/auth/jwt_hot_reload.py:55-70 | the secondary while its overlap lasts; afterwards none, and it is dropped |
| KeyRotation.JWTKeySlots.HandleRotation | src/cassetta/auth/jwt_hot_reload.py:125-186 | swaps the slots, unless the material is unusable or the key is the current one |
| KeyRotation.RunTells | src/cassetta/auth/jwt_hot_reload.py:177-186 | after any schedule the slots hold what the history says |
| KeyRotation.HistoryDecides | src/cassetta/auth/jwt_hot_reload.py:55-70 | at any time a key is accepted exactly if it is the primary, the boot secondary before any effective rotation, or the key displaced by the last effective rotation less than the overlap ago |
| KeyRotation.LookupsDoNotMatter | src/cassetta/auth/jwt_hot_reload.py:67-69 | the lazy drop never changes a later answer |
| KeyRotation.VerifiesIff | src/cassetta/auth/jwt_tokens.py:106-147 | a token verifies exactly if an accepted key signed it, it is in time and not revoked; a bad signature is reported exactly if no accepted key signed it |
| KeyRotation.RefusedFor | src/cassetta/auth/jwt_tokens.py:118-147 | and what it is refused for: undecodable, not signed by an accepted key, a claim missing, too early, expired, revoked, in this order |
| KeyRotation.SigningKeyStaysAccepted | src/cassetta/auth/jwt_hot_reload.py:177-186 | the key that was primary at some time stays accepted for the overlap, if effective rotations are at least that far apart |
| KeyRotation.TokenVerifiesUntilExpiry | src/cassetta/auth/jwt_tokens.py:118-147 | so a token signed with the then-primary key verifies until its expiry if its lifetime is within the overlap |
| KeyRotation.TwoQuickRotationsDropAKey | src/cassetta/auth/jwt_hot_reload.py:182-185 | the distance is needed: two rotations at once leave the first key unaccepted |
| KeyRotation.BootKeyAcceptedIff | src/cassetta/downloads.py:125 | once a rotation was effective, the key all signers use is accepted exactly if it was put back, or was displaced last and less than the overlap ago |
| KeyRotation.FreshTokensAreRefused | src/cassetta/downloads.py:125 | so new tokens are refused once the last rotation to another key is an overlap old |
| DownloadUrl.DecodeEncode | src/cassetta/defaults/default_transport.py:35-36 | UTF-8 (section 3 of RFC 3629) round trip for all text |
| DownloadUrl.UnquoteQuoted | src/cassetta/defaults/default_transport.py:35-36 | percent-encoding (sections 2.1 and 2.3 of RFC 3986) round trip for all bytes |
| DownloadUrl.QuotedHasNoSeparator | src/cassetta/defaults/default_transport.py:35-36 | quoted text holds no slash and no question mark |
| DownloadUrl.QuotedIsWellQuoted | src/cassetta/defaults/default_transport.py:35-36 | quoted text is letters, digits, `-._~`, and percent signs with two upper-case hex digits |
| DownloadUrl.PlainTextStays | src/cassetta/defaults/default_transport.py:35-36 | text of such letters, digits and marks stays as it is |
| DownloadUrl.SplitGivesBack | src/cassetta/routes/download.py:159-187 | for all bundle paths and names, and whatever query follows, the parser returns the pair the URL was built from |
| DownloadUrl.TurnedDownIff | src/cassetta/routes/download.py:179-186 | a path is turned down exactly if it does not begin with `/download/` or has no slash after that |
| DownloadUrl.UrlShape | src/cassetta/defaults/default_transport.py:26-37 | the URL is the base without the slashes at its end, `/download/`, and the two quoted texts |
| DownloadUrl.UrlsAreDistinct | src/cassetta/defaults/default_transport.py:26-37 | distinct pairs have distinct URLs |
| Latest.TextSortsAsTime | src/cassetta/routes/inbox.py:227 | comparing UTC timestamps as text, with or without microseconds, is comparing them in time (compare section 5.1 of RFC 3339) |
| Latest.DateShape | src/cassetta/routes/upload.py:384 | the text is year, month and day in their widths with dashes, a T |
| Latest.TimeShape | src/cassetta/routes/upload.py:384 | and hour, minute and second with colons, six digits behind a point if there are microseconds, and the offset |
| Latest.ListInbox | src/cassetta/routes/inbox.py:206-227 | an entry is listed exactly if some found bundle has its path and timestamp, is not hidden, and there is no time to live or its instant is at least now minus it; newest first, ties in path order; an error exactly if a timestamp that is looked at does not parse |
| Latest.ResolveLatest | src/cassetta/mcp_server.py:900-921 | picks the first in path order of the bundles whose age is within the time to live, by the same arithmetic, and that have the greatest timestamp; none exactly if none of them has one |
| Latest.YoungerStaysLonger | src/cassetta/routes/inbox.py:107-111 | age never drops a bundle before an older one, and never brings one back |
| Latest.LatestHeadsTheListingIff | src/cassetta/routes/inbox.py:417-448 | what the scan picks heads the listing exactly if it is not hidden by a claim |
| Latest.LatestIsNewestInTime | src/cassetta/mcp_server.py:907-918 | no unexpired bundle is newer than the one picked, and ties go to the first path |
| Broadcast.WriteInboxBundle | src/cassetta/routes/agents.py:67-99 | if the part names stay inside: commits the parts with exact read-back exactly if they can be stored, or leaves the tree as it was up to empty parents |
| Broadcast.ReplaceBundle | src/cassetta/routes/agents.py:317-330 | if the part names stay inside: after deleting what was there, the same, with nothing changed away from the path |
| Broadcast.WriteTargets | src/cassetta/routes/agents.py:316-331 | if the part names stay inside: all targets hold the payload, those of earlier labels keep it, and nothing fails if all paths are separate and free |
| Broadcast.ServeLabel | src/cassetta/routes/agents.py:259-338 | the outcome fits what the resolver and the policy answered |
| Broadcast.ServeAll | src/cassetta/routes/agents.py:255-338 | delivered, denied and failed split the visible labels, each for its reason; if the paths are separate and the part names stay inside, the payload is committed at every target of every delivered label |
| Broadcast.Broadcast | src/cassetta/routes/agents.py:226-378 | above the fan-out cap nothing is written; otherwise the split and the tag as a function of the counts; the delivered payloads if the part names stay inside; and no write failure where nothing is in the way |
| Broadcast.SplitCounts | src/cassetta/routes/agents.py:370-378 | the three counts add up to the number of visible labels |
| Sorting.StableSortSorted | src/cassetta/routes/inbox.py:227 | the sort puts keys in order |
| Sorting.StableSortKeepsTies | src/cassetta/routes/inbox.py:227 | items with equal keys keep their order |
| Sorting.HeadIsFirstBest | src/cassetta/routes/inbox.py:227 | and is stable where it matters: its head is the first best item |
| Strings.CanonicalNamesAreDistinctPaths | src/cassetta/backends/filesystem/storage.py:291 | different names without empty, `.` or `..` parts denote different paths |

## Left out

- HTTP routing, authentication middleware, CLI, configuration parsing, logging and metrics: no hard state.
- The tar format, gzip, base64, JSON, HMAC and SHA-256: an archive is a list of entries, a manifest is a value, a signature is the key it was made with, a digest is any function.
- Raw `put`, `get`, `delete`, `list`, the lease wrappers, foreign files, symlinks and case-insensitive filesystems.
- Failures of `rmtree`, `unlink` and `fsync`, crashes inside `delete` of a claim (but see `ClaimStorage.InterruptedDeleteAllowsASecondClaim`), corrupted sidecars and races between processes.
- Task cancellation during an upload is a lost writer, as in `BundleRuns.Lose`; the waits of `UploadBridge` are those of one request, with the loop otherwise idle.
- Bundle paths and recipients are plain segments: one that itself contains `..` or a leading slash is not part of this model, nor are NUL characters in names.
- How aliases resolve, policies and access checks: they answer as parameters; MIME types of manifest rows have no part in any decision.
- Floating-point clocks: times are integers, microseconds in the claim protocol; each request reads the clock once where the source reads it per bundle.
- Downloads hand over a whole file or nothing: `_body_generator` counts bytes only for logging, and an interrupted stream is abandoned.
- PyJWT's decoding is not part of this model beyond its order: signature, required claims, `iat` and `nbf`, `exp`.
- UTF-8 decoding of bytes that were not made by the encoder ends in no text, where the source puts replacement characters; the round trips do not reach that case.
- A public base URL with a path of its own: `_split_raw_path` expects `/download/` at the front.
- ClaimSweep.SweepClaims: sees bundles as a map from paths to manifests; that deleting one takes no other is `BundleRuns.RemovingOneKeepsTheOthers`.
- ClaimProtocol.NoBundleIsLost: assumes that a path is not written again once it was claimed; a claim names a path, so its progress would count for the new bundle.
- Upload.CommitOrAbort: of several faults of one commit it names one that is there, without the order among a repeated name, a wrong file set and a wrong size.
- Broadcast.WriteTargets: states the success of a write only where the paths are separate and free; elsewhere it depends on what earlier writes left beside the way.
- Storage.FilesystemBundleWriter.WriteFile: of a name that leaves the data root, above it or by a leading slash, only the bookkeeping is modelled, because what is outside the root is no part of the tree.
- Broadcast.ReplaceBundle: promises nothing but a sound tree for part names that climb out of the bundle, because with them its promises fail (`StrayNames.StrayPartReachesAnotherBundle`).
- BatchUpload.UploadBundle: of a hang after the parser raised it tells that the bundle directory is there, not what the failed write left in it.
