# arkive-sync: verified model

arkive-sync is an encrypted file sync daemon. This project models its hard core
in Dafny and proves what every input, every interleaving or every run of that
core keeps. `dafny verify dfyconfig.toml` checks the whole project.

How the modules follow the program:

| modules | what they model |
|---|---|
| `Partition`, `ChunkPipeline`, `PartClaiming`, `Download`, `RoundTrip` | the data path: plan, chunk windows, workers claiming parts, manifest, reassembly |
| `Base64`, `Resume`, `UploadResults` | resume records, the crash-safe upload of one path, and what a batch response then means |
| `Schedule`, `Batch`, `JobRunner`, `TransferQueue` | batch uploads from the queue row to the queue row |
| `EntrySync`, `EntryRuns`, `EntryTree`, `Reconciler` | the entry record, its decisions, whole runs over one path and over the tree, the reconcile pass |
| `RootScan`, `Daemon`, `DirtyPaths` | the resumable scan, the loop around it, the dirty-path queue |
| `Transport`, `Watcher`, `SnapshotDiff` | PUT bookkeeping between threads, inotify state, snapshot diff |

Conventions. A protocol with threads, crashes or a server is a step function
and a run is any sequence of steps; a step that does not apply changes nothing.
SQL statements are atomic and rows are records; a partial unique index is a
guard. Loops and objects of the program are methods and classes, each proved
equal to a specification function about which the lemmas speak. Exceptions are
`Err` values. The outside world (cipher, hash, server, kernel, clock, file
system) is a parameter and arbitrary up to these assumptions:

- decryption under the same key and associated data inverts encryption, a
  ciphertext is not empty, and the content hash identifies content;
- a file does not change while one upload call reads it, and a size and
  modification time (to the millisecond) never stand for two contents;
- storage keeps what a PUT stored, a PUT takes effect before its sender stops,
  and the finished object is the parts in numeric order;
- the server gives new session ids, opens a session without a multipart id only
  for a one-chunk file, and keeps the plan it was sent;
- curl never hands out a handle that is still in use;
- exceptions carry a message (the program's literals and its HTTP, curl, SQLite,
  cipher and system errors all do).

## What turned out not to hold

Kept as the code has it, each with a lemma giving the exact condition or a
concrete run:

- An empty file plans one chunk but its window is refused; windows are accepted
  exactly for sizes of at least one byte (`Partition.WindowsAcceptedIffNotEmpty`).
- A diff loses a vanished path exactly when a new path carries an identity
  shared by two vanished ones (`SnapshotDiff.ReplayIsExactIff`).
- Scans never set the column the classifier reads as "locally deleted", so local
  deletions never propagate (`EntryRuns.RemoteIsNeverDeleted`).
- Editing a file between its first upload and the next remote listing yields a
  conflict with the user's own upload (`EntryRuns.FirstUploadConverges`); the
  first listing is acknowledged whatever it says
  (`EntryRuns.FirstListingIsAcknowledged`); a re-upload settles only if the
  server lists the old version (`EntryRuns.ReuploadSettlesIff`).
- A file created or edited after the last scan is overwritten or deleted by a
  two-way reconcile: content that was never transferred is lost exactly when the
  row is out of step with the disk (`EntryRuns.LostIffOutOfStep`,
  `EntryRuns.NothingLostIffInStep`, and `EntryRuns.UnscannedEditIsLost` as a
  witness).
- In mirror mode an entry recorded as locally deleted is downloaded again and
  again (`EntryRuns.DownloadConverges`).
- Retrying all failed jobs is refused as a whole exactly when two rows it would
  make active share an entry and job type (`TransferQueue.RefusedExactly`).
- A second moved-from with a pending cookie replaces the first
  (`Watcher.MovesAreConserved` counts these).

## Model

| member | source | states |
|---|---|---|
| Partition.PlanIsExact | src/upload/UploadPlanner.cpp:12-31 | for every supported size no 64-bit operation of the planner wraps, and the chunk and part counts are the ceilings they should be |
| Partition.PartIsExact | src/upload/MultipartUploader.cpp:19-29 | each part's byte range and chunk window in closed form, without wrap-around, never empty |
| Partition.PartsTileTheFile | src/upload/MultipartUploader.cpp:19-29 | the part ranges are non-empty and tile [0, size) in order |
| Partition.WindowsTileTheChunks | src/upload/MultipartUploader.cpp:74-83 | the per-part chunk windows tile 1..totalChunks in order |
| Partition.WindowsAcceptedIffNotEmpty | src/fs/UploadFileChunkReader.cpp:28-68 | all windows of a plan pass every constructor check if and only if the file is not empty |
| Partition.WindowAcceptedExactly | src/fs/UploadFileChunkReader.cpp:28-68 | for all 64-bit arguments: the windows accepted are those within the file and those whose end wraps around, and which error each other window gets |
| Partition.CastsExactIffSupported | src/service/UploadService.cpp:54-76 | the casts of chunk and part counts to int keep their values exactly up to (2^31-1) chunks of 4 MiB, and no further |
| Partition.ChunksTileTheContent | src/fs/UploadFileChunkReader.cpp:74-105 | chunk n is the content's n-th slice and the slices are consecutive and complete |
| ChunkPipeline.ChunkReader.NextEncryptedChunk | src/fs/UploadFileChunkReader.cpp:74-105 | succeeds exactly while the window has chunks and the file has bytes; seals the next slice under its own number and advances by what it read |
| ChunkPipeline.SealWindow | src/upload/MultipartUploader.cpp:84-107 | the chunk loop yields exactly the sealed records, bytes and hashes of the window for the given nonces |
| ChunkPipeline.SealedPartDescribed | src/upload/MultipartUploader.cpp:72-117 | with a sound cipher what a worker sends and keeps of a part describes that part: cut by the record sizes the body decrypts, piece by piece, to the part's chunks |
| ChunkPipeline.PreparePart | src/upload/MultipartUploader.cpp:72-117 | preparing a part fails exactly for the empty file; otherwise its result and body are the sealed part's, and describe it |
| ChunkPipeline.DescribesConcat | src/upload/UploadFinalizer.cpp:57-68 | concatenating described bodies and their records keeps them described, with the piece hashes concatenated |
| ChunkPipeline.AssembleManifest | src/upload/UploadFinalizer.cpp:57-68 | manifest and combined hash input are the parts' records and hashes in part order |
| ChunkPipeline.ManifestDescribesObject | src/upload/UploadFinalizer.cpp:57-84 | if every part is left described, the manifest has one record per chunk, describes the whole stored object, and the combined hash covers exactly its pieces |
| PartClaiming.NextInv | src/upload/MultipartUploader.cpp:59-194 | every atomic step of every worker, failures of preparing, sending, registering and the part callback included, keeps the pool invariant |
| PartClaiming.NoSharedSlot | src/upload/MultipartUploader.cpp:59-67 | in every reachable state no two workers hold the same part, so no slot is touched by two |
| PartClaiming.ClaimedOnce | src/upload/MultipartUploader.cpp:60-64 | a part number handed out is never handed out again, in any continuation |
| PartClaiming.NormalReturn | src/upload/MultipartUploader.cpp:36-209 | for every interleaving that returns normally: resumed parts were not sent; every other part was sealed and PUT exactly once and its slot carries the etag storage answered; slot i describes what storage holds for part i+1; when multipart the server was told exactly that slot's hash and etag |
| PartClaiming.FailureIsReported | src/upload/MultipartUploader.cpp:183-207 | any failure of any worker, at any point, is among the recorded errors and makes the call fail, with the error recorded first, once the workers are joined |
| PartClaiming.FailuresUndoNothing | src/upload/MultipartUploader.cpp:143-189 | a failing step raises the stop flag and leaves slots alone; storage keeps what it took and the server what it was told |
| PartClaiming.OnlyFailuresFail | src/upload/MultipartUploader.cpp:183-207 | and nothing else does: without a failing step no error is recorded and no worker is stopped |
| PartClaiming.StoppedClaimsNothing | src/upload/MultipartUploader.cpp:59-64 | once the stop flag is up and no worker is past its check, no part is handed out any more |
| PartClaiming.NeverStuck | src/upload/MultipartUploader.cpp:59-190 | in every reachable state every worker that has not left its loop can make its next step, whatever the others do |
| PartClaiming.EveryRunEnds | src/upload/MultipartUploader.cpp:196-207 | in every interleaving the workers together make at most two steps each and six for every part, so the join is reached |
| PartClaiming.ConcurrencyBounds | src/upload/UploadPolicy.cpp:21-33 | the most workers that are at most six, at most the parts and at most a positive server cap, and at least one |
| Download.ParseDownloadManifest | src/download/DownloadManifest.cpp:21-50 | the loop computes the running cipher and plain offsets of the recursive specification, and its errors |
| Download.DescribedManifestIsReadable | src/download/DownloadManifest.cpp:21-50 | parsing a manifest that describes the object never fails, wraps no offset, and every range holds its own chunk at its own place |
| Download.MissingSizesAreFilledIn | src/download/DownloadManifest.cpp:27-34 | a manifest that lacks any of its plain sizes parses to the same ranges as the complete one |
| Download.AtomicFileWriter.WriteAt | src/platform/linux/filewriter/LinuxAtomicFileWriter.cpp:49-70 | whatever the short writes and interruptions, success means the file is overwritten with exactly the data at the offset |
| Download.AtomicFileWriter.Commit | src/platform/linux/filewriter/LinuxAtomicFileWriter.cpp:72-90 | the target becomes the temporary content on success and is untouched on any failure |
| Download.AtomicFileWriter.Rollback | src/platform/linux/filewriter/LinuxAtomicFileWriter.cpp:92-102 | drops the temporary file unless committed and never touches the target |
| Download.DownloadFile | src/download/DownloadService.cpp:31-57 | against a faithful record, plain sizes present or missing: a return leaves exactly the uploaded content at the target, a failure leaves the target as it was |
| RoundTrip.DescribedPartsAreFaithful | src/upload/UploadFinalizer.cpp:57-84 | parts described as the uploader leaves them, concatenated, make a record the download can rely on |
| RoundTrip.UploadThenDownload | src/download/DownloadService.cpp:31-57 | round trip: for every supported content, sound cipher, worker schedule, nonces and pattern of partial writes, sealing and upload then download writes exactly the original bytes, or throws and leaves the target untouched |
| Base64.EncodeBase64 | src/helpers/Base64.cpp:32-65 | the block loop computes the encoding of section 4 of RFC 4648 as specified |
| Base64.EncodedShape | src/helpers/Base64.cpp:32-65 | four characters for every three bytes begun, padded with '=' for exactly the bytes missing to a multiple of three |
| Base64.DigitAlphabet | src/helpers/Base64.cpp:8-9 | the 64 digits are A-Z, a-z, 0-9, + and / in this order |
| Base64.DecodeBase64 | src/helpers/Base64.cpp:67-95 | the accumulator loop computes the decoding specification, errors included |
| Base64.DecodeIgnoresSpace | src/helpers/Base64.cpp:72-76 | whitespace anywhere does not change the result, in any accumulator state |
| Base64.DecodeInvertsEncode | src/helpers/Base64.cpp:67-95 | decoding an encoding returns the bytes from any 32-bit accumulator value, so wrap-around on long inputs is harmless |
| Base64.RoundTrip | src/helpers/Base64.cpp:32-95 | any text that is an encoding with whitespace inserted decodes to the encoded bytes |
| Base64.RefusesExactly | src/helpers/Base64.cpp:77-84 | decoding fails exactly if an invalid character occurs before the first padding |
| Resume.RecordRoundTrip | src/service/UploadService.cpp:78-121 | a resume part record reads back to the part it was made from |
| Resume.MatchingRowIsSameJob | src/service/UploadService.cpp:54-76 | for a hashed entry, a session row that matches leads back to the very key, identity and content its session was opened with |
| Resume.MatchesExactly | src/service/UploadService.cpp:54-76 | the row written at a session's start matches a later call if and only if size, folder and hash agree, or the time where a hash is missing |
| Resume.MatchPinsThePlan | src/service/UploadService.cpp:54-76 | any row that matches, whoever wrote it, has the call's size and folder and the chunk and part sizes and counts of its plan |
| Resume.NextWorldInv | src/service/UploadService.cpp:499-605 | every step of start, every worker, row statement, lost answer, reset, error and crash keeps the invariant |
| Resume.ResetStartsOver | src/service/UploadService.cpp:590-600 | in every run of hashed calls a 404 or 409 in a resumed first attempt ends, after the two deletes and the lookup, in a second attempt that opens anew, with no session row and no part row of the old session left; any other HTTP error ends the call and keeps the rows |
| Resume.SecondAttemptIsFresh | src/service/UploadService.cpp:499-605 | after such a reset no continuation within the call transfers into the session that was reset, whatever crashes and answers follow |
| Resume.OldSessionsAreForgotten | src/repo/UploadResumeRepo.cpp:337-391 | a completed session, and one that does not match the call, leave no row of theirs behind; the call then opens anew or returns |
| Resume.PersistReplaces | src/service/UploadService.cpp:534-570 | the row of a new session takes the place of any row of the path, whose part rows go too, and all its parts start unsent |
| Resume.ErrorsKeepTheRows | src/service/UploadService.cpp:507-533 | an error, a crash or a session whose key or part rows cannot be read ends the call with every row kept |
| Resume.CompletedOnlyWhole | src/service/UploadService.cpp:499-605 | in every run of hashed calls a completed session had all parts stored (registered if multipart) under its one key and from its one content, its object downloads to that content, and its storage still is that object unless something was sent to it since |
| Resume.ReturnedIsCompleted | src/service/UploadService.cpp:579-589 | a call that returns has completed a session of the very content it was called for and returns that session's vault and file id |
| Resume.ReturnedForGood | src/service/UploadService.cpp:579-589 | once a call has completed its session and deleted the rows, no later call, answer or crash touches that session: its storage stays the object the server was told of |
| Resume.CompletionIsRecorded | src/service/UploadService.cpp:579-589 | what the server records at a completion, whether its answer is heard or lost, and that exactly an answered one is returned, with the session's own ids |
| Resume.OnlyPutsSend | src/upload/MultipartUploader.cpp:143-151 | only a call transferring into a session touches it, and only its PUTs send to it |
| Resume.MatchingCallResumes | src/service/UploadService.cpp:507-533 | after any run a matching call continues the session's own job, counts as resumed, and skips exactly the parts recorded with an etag |
| Resume.DeletePartRowsInv | src/repo/UploadResumeRepo.cpp:337-391 | deleting part rows first and the session row second keeps the invariant at every crash point |
| Resume.RegisteredRecord | src/upload/MultipartUploader.cpp:144-157 | the part row written after registration reads back to what storage holds for that part, with the etag storage answered |
| Resume.RegisteredSurvivesCrash | src/service/UploadService.cpp:507-578 | in every run of hashed calls, a part registered with a non-empty etag just before a crash is continued in the same session and not sent again by the next matching call |
| Schedule.PlanWindows | src/service/UploadService.cpp:319-372 | the windows run the files group by group in class order, each window within its class; every window but a group's last is full |
| Schedule.SizeClasses | src/upload/UploadPolicy.cpp:7-19 | the four file concurrencies, each for exactly its sizes in bytes |
| Schedule.EachFileOnce | src/service/UploadService.cpp:319-372 | every file of the batch is transferred exactly once, for any mix of sizes |
| Schedule.WindowBound | src/upload/UploadPolicy.cpp:7-33 | at most 48 part uploads are in flight, for any sizes and any server cap |
| Batch.Correlate | src/service/UploadService.cpp:237-261 | paging by a hundred and keeping first answers gives, for every id, the first answer the server gave to that id in all pages |
| Batch.RefusedItems | src/service/UploadService.cpp:192-227 | an item is refused exactly if it is a directory or has no valid size; otherwise its resume lookup decides |
| Batch.StartsAsPlanned | src/service/UploadService.cpp:237-261 | a new item is started under its own id and folder with the plan of its size, as a single part exactly up to 4 MiB |
| Batch.UploadFilesBatch | src/service/UploadService.cpp:173-478 | one result per item, in order, under its id; with distinct ids the result of each item is a function of that item's own answers alone, unless limits, a page, a session row or its deletion throws, and then the batch throws that |
| Batch.ResponseIsOwn | src/service/UploadService.cpp:434-460 | whatever the server reorders, omits, duplicates or invents, a response is a resumed upload's own or the server started and completed that very client id and session |
| UploadResults.ResponseMeansCompleted | src/service/UploadService.cpp:203-212 | with resumed items run by the single-file uploader, every response stands for a completed session of that item: a whole one of its own bytes, or one started and completed in this batch under its id |
| JobRunner.RunBatch | src/service/UploadJobRunner.cpp:145-204 | results in job order; with distinct ids errors and marks are those of each job's own item, exactly the responses are marked, each on its own entry, up to an entry update that throws |
| JobRunner.DoneIffUploadedOrUnwanted | src/service/UploadJobRunner.cpp:145-204 | a job ends without error if and only if its upload is unwanted, or it was completed under the job's own client id or resumed session and recorded on the job's own entry |
| TransferQueue.RefusedExactly | src/repo/QueueRepo.cpp:105-216 | the unique index refuses a statement if and only if it enqueues an active key, retries a job with a rival, or retries all failed rows with a clash; claims, marks and recovery are never refused |
| TransferQueue.StatementsRecord | src/repo/QueueRepo.cpp:249-493 | what each queue statement does to a row and to no other: claims, marks, retries counting up, recovery and clearing |
| TransferQueue.IndexUnseenIffDisciplined | migrations/001_initial_schema.sql:173-175 | a run keeps one active row per entry and job type by itself, never meeting the index, if and only if it enqueues no active key and retries no row that has a rival |
| TransferQueue.QueueRepo.ClaimNextQueuedByType | src/repo/QueueRepo.cpp:249-335 | claims an oldest queued row of the type, or none is queued |
| TransferQueue.QueueRepo.RunTick | src/service/QueueService.cpp:146-199 | with both workers one tick ends, keeps all rows and moves each queued row to done or failed exactly once and no other row; an upload is done exactly if its batch result has no error; an exception from a batch leaves just that batch's rows running |
| TransferQueue.DoneUploadIsReal | src/service/QueueService.cpp:189-197 | a row decided by a batch ends done if and only if its upload was unwanted, or completed under its own id and marked on its own entry |
| EntrySync.TwoWayExactly | src/sync/SyncPolicy.cpp:43-71 | each two-way decision if and only if a condition on the row's columns: the local copy is given up only if synced, the remote only if unmoved; in conflict every mode decides Conflict |
| EntrySync.OneWayExactly | src/sync/SyncPolicy.cpp:5-41 | each upload-only and mirror decision if and only if a condition on the row's columns; upload-only never gives up a local copy, mirror never a remote one |
| EntrySync.TwoWayRefinesOneWay | src/sync/SyncPolicy.cpp:94-105 | two-way is Noop if and only if both one-way modes are, and short of a conflict decides what the one-way mode of that direction decides |
| EntrySync.FileScanRecords | src/repo/LocalEntryRepo.cpp:129-212 | a scan records size, time, hash and scan id, is pending upload exactly if new, deleted, never uploaded or changed, and keeps the remote columns of a row not locally deleted |
| EntrySync.ListingRecords | src/repo/RemoteEntryRepo.cpp:26-179 | a listing records every remote column, keeps the local ones, and acknowledges the version exactly on a first listing of the row's own upload |
| EntrySync.ListedDeletionIsActedOn | src/sync/SyncPolicy.cpp:24-71 | a listed deletion deletes the local copy if that is synced, is a conflict otherwise, and is uploaded again in upload-only mode |
| EntrySync.DownloadMarksRecord | src/repo/RemoteEntryRepo.cpp:222-285 | both download marks acknowledge the remote version, the measured one records the file, and no other column changes |
| EntrySync.FolderMarkSettles | src/repo/RemoteEntryRepo.cpp:287-320 | a created folder is no longer decided Upload and keeps its local columns |
| EntrySync.RootDeletionSettles | src/repo/RemoteEntryRepo.cpp:322-351 | a row of a deleted remote root is Noop in every mode, out of conflict, and keeps its hashes and remote id |
| EntryRuns.NextInv | src/sync/RootScanner.cpp:80-138 | every edit, scan, sweep, listing, upload, reconcile and root deletion keeps: synced hashes were transferred, recorded size and time stand for the recorded hash |
| EntryRuns.TwoWayDataSafety | src/service/SyncReconciler.cpp:132-188 | over every run: the local copy is given up only if its recorded content was transferred (and the disk content too, when the row is in step), uploads only over an absent or acknowledged remote, nothing in conflict |
| EntryRuns.UploadRecordsWhatWasSent | src/service/UploadJobRunner.cpp:82-114 | an upload let through records as synced exactly the hash of the content sent |
| EntryRuns.UploadSettles | src/repo/RemoteEntryRepo.cpp:181-220 | for every row and mode that decides Upload: the marked row is on the server under the new id in both id columns, not in conflict, not locally moved; upload-only decides Noop and no mode decides anything but Noop or Download |
| EntryRuns.UploadedOnce | src/service/UploadJobRunner.cpp:82-114 | over every run: after an upload let through no mode decides to upload it again, delete either copy or call it a conflict, until an edit, a listing, a directory in its place, an unhashed download or a root deletion |
| EntryRuns.ScanCatchesUp | src/sync/RootScanner.cpp:80-138 | after any run one scan brings the row in step with the file on disk, so that a two-way decision to give it up means it was transferred |
| EntryRuns.LostIffOutOfStep | src/service/SyncReconciler.cpp:140-182 | from every reachable state whose row gives up the local copy, by download or deletion, and for every content put there: in step it was transferred; it is lost if and only if it is out of step and was never transferred |
| EntryRuns.NothingLostIffInStep | src/service/SyncReconciler.cpp:140-182 | every content with a given unseen or recorded size and time survives the reconcile if and only if the row records that size and time |
| EntryRuns.UnscannedEditIsLost | src/service/SyncReconciler.cpp:157-182 | a concrete run in which an unscanned edit is overwritten |
| EntryTree.TreeDataSafety | src/repo/RemoteEntryRepo.cpp:26-179 | the same two-way safety at every path of the tree, over every run, with listings that move rows between paths |
| EntryTree.RenameMovesTheRow | src/repo/RemoteEntryRepo.cpp:27-90 | a listing under a new free path moves the one row with that remote id there, and touches no other row and no file |
| EntryTree.ListingLands | src/repo/RemoteEntryRepo.cpp:26-179 | where a listing lands: an unknown id at its own path, a known id updated in place, moved to a free path, or refused at a taken one; nothing else changes |
| EntryTree.StepsAreLocal | src/service/SyncReconciler.cpp:132-188 | every other step at a path is that path's own step and leaves rows and files at all other paths alone |
| EntryRuns.ConflictIsSticky | src/repo/ConflictRepo.cpp:13-41 | short of deleting the remote root no run ends a conflict, and every mode keeps deciding Conflict |
| EntryRuns.RemoteIsNeverDeleted | src/repo/LocalEntryRepo.cpp:237-264 | short of deleting the remote root no run makes any mode delete the remote copy |
| EntryRuns.DownloadConverges | src/repo/RemoteEntryRepo.cpp:249-285 | after a measured download the row is clean and Noop if and only if it was not recorded as locally deleted |
| EntryRuns.FirstUploadConverges | src/repo/RemoteEntryRepo.cpp:26-61 | after a first upload, a rescan and the first listing the row is clean if and only if the content did not change, and a two-way conflict otherwise |
| EntryRuns.CleanStaysClean | src/repo/LocalEntryRepo.cpp:129-212 | a clean row stays clean and Noop in every mode under any interleaving of scans, sweeps, listings, jobs and reconciles that see nothing new |
| EntryRuns.ConvergesAfterDownload | src/service/SyncReconciler.cpp:155-182 | from any reachable state a measured download of a row not recorded as locally deleted leaves every mode at Noop, through any continuation that sees nothing new |
| EntryRuns.ConvergesAfterFirstUpload | src/repo/RemoteEntryRepo.cpp:26-220 | from any reachable state a never-synced file's upload, any rescans of the unchanged file and its first listing leave every mode at Noop, through any continuation that sees nothing new |
| EntryRuns.RevivalStartsOver | src/repo/LocalEntryRepo.cpp:152-212 | a file found again under any row recorded as locally deleted keeps nothing of its remote past and is uploaded as new |
| EntryRuns.ReuploadSettlesIff | src/repo/RemoteEntryRepo.cpp:181-220 | a re-upload of an acknowledged file settles if and only if the old version is listed again, and is downloaded back otherwise |
| EntryRuns.FirstListingIsAcknowledged | src/repo/RemoteEntryRepo.cpp:40-47 | the first listing after an upload is acknowledged whatever version it names |
| EntryRuns.UnhashedDownloadComesBack | src/repo/RemoteEntryRepo.cpp:222-247 | a download recorded without a hash is decided Upload after the next scan |
| Reconciler.ConflictPathFor | src/service/SyncReconciler.cpp:60-93 | the first free one of 999 names, never an existing path; an error exactly if all are taken |
| Reconciler.RemovedExactly | src/service/SyncReconciler.cpp:38-58 | a deletion removes exactly the path and, for a directory, what lies below it |
| Reconciler.Replica.ReconcileEntry | src/service/SyncReconciler.cpp:95-188 | one row's turn: the row becomes what its decision says, the deleted file is gone, the fetched one is there, a conflict copy is written under the first free name, and no other file is touched |
| Reconciler.Replica.ReconcileRoot | src/service/SyncReconciler.cpp:132-207 | every row is handled once by its own listed state, and files whose row neither fetches nor deletes, below no deleted directory, are untouched even if the pass aborts |
| Reconciler.TouchedFilesAreSynced | src/service/SyncReconciler.cpp:132-188 | in two-way mode a touched file is recorded as synced and not in conflict, or lies below a remotely deleted directory |
| RootScan.RootScanner.PositionAfterCursor | src/sync/RootScanner.cpp:39-78 | the seek loop stands just past the cursor, or at the root if the cursor is missing or last |
| RootScan.RootScanner.MarkBatch | src/sync/RootScanner.cpp:305-364 | one batch marks, from its position, up to 500 directories and files, and its cursor is the node before the new position |
| RootScan.RootScanner.ScanRoot | src/sync/RootScanner.cpp:245-388 | one uninterrupted call: the database, job row and iterator are those of the specification, whether it creates, continues, re-seeks or completes |
| RootScan.ReseekIsContinue | src/sync/RootScanner.cpp:289-303 | continuing the in-memory iterator and re-seeking from the persisted cursor are the same |
| RootScan.BatchAdvances | src/sync/RootScanner.cpp:366-381 | each batch moves the position strictly forward or completes the job |
| RootScan.MarkedContent | src/sync/RootScanner.cpp:80-138 | every marked node's row records its kind and, for a file, its size, time and hash, whatever was marked later |
| RootScan.CompletedScanIsExact | src/sync/RootScanner.cpp:245-388 | whatever the batch boundaries and interruptions, a completed scan, created by its first call or by a full-rescan event, leaves live exactly the tree's regular files and directories, each recording its node, and the same database as a scan without restarts |
| Daemon.MarksSurviveToSweep | src/platform/daemon/PollingDaemon.cpp:193-265 | in every run with crashes and full-rescan events, at completion the rows carrying the job's id are exactly those any of its batches marked |
| Daemon.NoPathScanDuringJob | src/platform/daemon/PollingDaemon.cpp:198-211 | no path scan happens between a job's first batch, whatever it marked, and its completion |
| Daemon.RescanIsServed | src/platform/daemon/PollingDaemon.cpp:193-252 | a full rescan asked for while no job runs opens a new job that survives a crash, is continued after it, and completes with the marks of both batches |
| Daemon.LoopOrder | src/platform/daemon/PollingDaemon.cpp:193-265 | which place of the loop allows which step: a running job is continued, dirty paths have their turn only without one |
| Daemon.TicksAreBounded | src/platform/daemon/PollingDaemon.cpp:211-218 | in every run at most a hundred dirty paths are claimed in one tick |
| DirtyPaths.RecordedKeys | src/repo/DirtyPathRepo.cpp:116-197 | which keys an event leads to, if and only if: its path, for a rename also the path it left, every root for an overflow, none for temporary, unknown or outside ones |
| DirtyPaths.RecordedActions | src/repo/DirtyPathRepo.cpp:116-197 | the action of every insert by the kind of event: scan, delete, delete then scan for a rename, full rescan for an overflow |
| DirtyPaths.LastInsertWins | src/repo/DirtyPathRepo.cpp:203-283 | after any inserts the pending row of a key carries the action of the last of them, and other keys keep theirs |
| DirtyPaths.DirtyPathRepo.Record | src/repo/DirtyPathRepo.cpp:116-197 | the inserts of an event, in order; every key it concerns has a pending row afterwards |
| DirtyPaths.DirtyPathRepo.InsertDirtyPath | src/repo/DirtyPathRepo.cpp:203-283 | the pending row of the key takes the new action, or a pending row is appended |
| DirtyPaths.DirtyPathRepo.ClaimNextPending | src/repo/DirtyPathRepo.cpp:285-364 | claims the row that is first by pending before failed, age, insertion order; none is claimable otherwise |
| DirtyPaths.ClaimPicks | src/repo/DirtyPathRepo.cpp:285-364 | the claim order written out: an oldest pending row of the root, and only without one an oldest failed row |
| DirtyPaths.LifeOfARow | src/repo/DirtyPathRepo.cpp:285-418 | a claim makes its row running and not claimable, an end makes it done or failed and claimable again, and nothing else changes |
| DirtyPaths.NoLostChange | src/repo/DirtyPathRepo.cpp:203-418 | in every run, for each accepted event, a claim of its key made after it has ended well, or a row stands for it: pending, failed, or claimed after it and still running; and no key has two pending rows |
| DirtyPaths.RunningScanAbsorbsNothing | migrations/001_initial_schema.sql:177-186 | an event during a running scan of its key opens a new pending row and leaves the running one alone |
| Transport.NextInv | src/networking/StoragePutTransport.cpp:104-249 | every step of clients, destructor and worker keeps the invariant |
| Transport.ExactlyOnce | src/networking/StoragePutTransport.cpp:87-249 | in every interleaving an accepted request is in exactly one place and its promise is set at most once; once answered it holds a value if and only if curl succeeded with a status from 200 to 299, then the etag of its own last header, and otherwise that answer's own error; none is unresolved when the worker has exited |
| Transport.ResolvedIsFinal | src/networking/StoragePutTransport.cpp:158-169 | a resolved promise is never touched again |
| Transport.RequestIsServed | src/networking/StoragePutTransport.cpp:87-240 | from any reachable state at rest a request is taken up, sent, answered and resolved by its answer, and the worker rests again |
| Transport.StoppedLeaves | src/networking/StoragePutTransport.cpp:78-102 | after a shutdown at rest no request is accepted and the worker exits |
| Watcher.InotifyWatcher.AddWatch | src/platform/linux/watcher/INotifyWatcher.hpp:175-202 | the maps stay exact inverses even when the kernel answers with a descriptor in use for another path |
| Watcher.InotifyWatcher.RemoveWatchesUnder | src/platform/linux/watcher/INotifyWatcher.hpp:161-173 | drops exactly the watches at or below the path, maps inverse |
| Watcher.EventTypes | src/platform/linux/watcher/INotifyWatcher.hpp:32-56 | the kind of event for every mask, by the order of the tests |
| Watcher.InotifyWatcher.HandleEvent | src/platform/linux/watcher/INotifyWatcher.hpp:258-393 | maps stay inverse; a Renamed is reported exactly for a moved-to that pairs with a pending move of its root, with both ends; pending moves and watches become what the event says and nothing else |
| Watcher.InotifyWatcher.DrainExpiredMoves | src/platform/linux/watcher/INotifyWatcher.hpp:223-256 | each expired move is reported deleted exactly once and forgotten, the others are kept, and exactly the watches at or below expired directories are dropped |
| Watcher.MovesAreConserved | src/platform/linux/watcher/INotifyWatcher.hpp:223-393 | over every run: moved-from events with a cookie equal reports plus pending plus replaced; fresh cookies are never replaced |
| Watcher.FreshMoveReportedOnce | src/platform/linux/watcher/INotifyWatcher.hpp:282-320 | a single moved-from yields exactly one Renamed or Deleted or is still pending |
| SnapshotDiff.DiffFileSnapshots | src/fs/FileSnapshot.cpp:108-177 | for any enumeration order: every new path once Created or a rename target; a common path Modified exactly if its kind, size or modification time differ; renames join equal identities; every vanished path once Deleted or a rename source unless lost; every event carries the kind of its own entry |
| SnapshotDiff.SilenceMeansUnchanged | src/fs/FileSnapshot.cpp:52-55 | a common path without Modified has the same kind, size and modification time in both snapshots, and conversely |
| SnapshotDiff.LostIffShared | src/fs/FileSnapshot.cpp:114-118 | some vanished path is lost if and only if a new path carries an identity two vanished paths share |
| SnapshotDiff.ReplayIsExactIff | src/fs/FileSnapshot.cpp:108-177 | replaying the events on the old path set gives the new one if and only if no identity is so shared |

## Left out

- Crypto internals, hashing, zeroization, key derivation, thumbnails, metadata and search tokens: foreign calls or wrappers.
- SQLite, curl, JSON and header parsing, timestamps and logging: rows are records, JSON is structured values, an etag is a string.
- IPC server, CLI, auth, vault session, secure storage, and IPC `sync run`/`sync pull` beside the daemon loop.
- macOS and Windows writers and watchers: the same logic with other system calls.
- Queue building (`buildPage` keyset pagination, `enqueueEntry` guards) and the folder worker: only easy members.
- Path scans (`scanPath`, `scanSubtree`) and the SQL `LIKE` subtree match: in `Daemon` a path scan marks any rows with a new id.
- Files and directories that appear, vanish or fail during a root scan: `RootScan` takes a static tree without I/O errors.
- Resume rows written by the batch path: `Resume` follows `uploadFile`, whose statements are the same; in `Batch` they can only fail.
- Liveness of storage and servers: a foreign call that never returns blocks its thread; `PartClaiming.EveryRunEnds` counts a call as one step.
- Threads work on values in `PartClaiming` and `Transport` (state machines), so object identity and memory ordering below sequential consistency are not captured.
- Daemon.MarksSurviveToSweep: the endless loop is a step system over one root; queue cursors and remote polling intervals are not captured.
- EntryRuns.TwoWayDataSafety: is about a file entry's own decision at one path; rows that listings move between paths are in `EntryTree`, and what deleting a directory does to files below it is in `Reconciler`.
- Batch.UploadFilesBatch: for items that share an id only the order and ids of the results are stated, because ids are primary keys of queue rows.
- TransferQueue.QueueRepo.RunTick: exceptions from a batch end a tick, but failures of the queue's own claim and mark statements are not modelled.
- Sizes above (2^31-1) chunks of 4 MiB: the protocol's int casts no longer keep the counts (`Partition.CastsExactIffSupported`).
