# Verification of the file synchronisation core

A Dafny 4.11 model of yun-cunchu: the resumable sync client, the MD5 code it hashes with, its wire protocol and
session, the SQLite file index, the control-plane texts, the shared library, and the mirror used by backup and restore.
`dafny verify dfyconfig.toml` checks everything.

## How the model is laid out

| part | modules |
|---|---|
| bytes and results | Base |
| MD5 and the hasher | Blocks, Md5, Md5Context, Hasher, Md5Laws |
| chunk lists and the chunker | Chunks, Chunker |
| the sync client: specification and laws | Attempt, CommitSafety, ResumeInvariant, Convergence, Versions, Supplies, TaskProgress |
| the sync client: the code | SyncWriter, ChunkReader, SyncClient |
| manifest comparison and delta sync | Diff, Delta |
| wire format, framing, transport | Decimal, Wire, Codec, Messages, WireSamples, Framing, Transport |
| the file index | FileIndex |
| the two sides of a session: the code | Server, Session |
| whole client runs: specification and laws | ClientRun, ClientLaws, WithoutLocal, StableClient, ClientConvergence, ClientSessions |
| whole client runs: instances | OneFile, Swapped |
| control-plane texts | Lines, TaskText, RestoreText |
| the shared library | SharedTables, LibraryRules, SharedLibrary, LibraryLaws, LibraryTasks, TaskAgreement |
| the mirror | MirrorRules, BackupLaws, Mirror |

Code that changes state step by step is a class or a method with loops, proved to do what a specification function says;
the laws are proved about that function, for every input or every run.

**The sync client.** Its persistent state (`Attempt.Disk`) is the files, the rows of sync_task_chunks (marks) and of
sync_tasks. `Attempt.Trace` lists every persistent state one attempt for one file passes through, in the code's order;
`SyncClient.FileSync.Sync` is the client's code, with the writer, the hasher and real MD5, and leaves exactly that
history. A crash (`CommitSafety.CrashLeaves`) leaves any state of the list, or an append to the .part cut short anywhere.
On this the three main results stand: at any path that is no job's .part, a file only ever changes to bytes some attempt
requested (CommitSafety); once a prefix is marked, a .part of that length is that prefix of the version
(ResumeIsExact); and from any marks and any .part at most three uninterrupted attempts commit (ConvergesInThree), with a
ranking that each attempt lowers. With stable files the rank, and at rank 2 the chunks of the local file, decide whether
an attempt commits (CommitsExactly); from the worst rank the third attempt is needed if and only if the local file lacks
a chunk of the version (ThreeAreNeeded), and two crashes for two versions of a path reach that rank (WorstCaseIsReached).

**The whole client.** `ClientRun.Steps` is the loop over the requests as a function of disk and index: an attempt, then
the new index row, stopping at the first file that fails. `Session.RunSession` runs both programs over one link, with the
disk, the index and real MD5: whatever happens nothing is left under way, the disk passes through exactly the states of
that loop, and the acknowledgement is sent exactly if it goes through, once, as the last frame, and read as a success
(AcknowledgedOnce). At every state a file is what it was or a
requested file in place (SessionIsSafe).

- What an acknowledgement means: every requested file is in place (AcknowledgedMeansInPlace), and every file of the
  server if and only if those found identical were (SyncedExactly), whatever the server sent and the index held.
- When it is sent, with stable files: if and only if every requested file commits (SessionExactly). A file commits with
  its local chunks if it is ready, and without them if its rank is 1 and nothing was left out of its request behind the
  marked prefix. They are out of reach when an earlier file of the session took the index row, having the same hash, or
  when the row is stale: a scan never removes the row of a deleted file.
- How often the client has to run, each time a full scan and a session: of any 2n + 1 runs in a row against a server of n
  files one is acknowledged, unless one of them counts on a chunk that is out of reach, behind a marked prefix; and such
  a run is never acknowledged (ClientConverges). This can go on for ever: for any chunk size, and any hash that tells the
  contents apart, there are two files and a scan order for which no number of runs is enough (NeverAcknowledged). It
  does not happen while no row is stale and no local file has the hash of another of the server's files
  (ApartLosesNothing).

**Fixed points.** Where one function is used by the code and by its specification, its meaning is stated apart from both:
MD5's pieces by their tables and as numbers, and one digest of RFC 1321 worked out step by step (SampleDigest); numbers
on the wire by their order (NetworkOrder, DigitsOrder); each kind of message and text by its bytes; each operation of
library, backup and restore by the records it leaves (ReceiveTask, RetriedTask, ReportEffect, CleanupEffect,
BackedUpRestores, RestoreIsExact); the task rows of an attempt by the marks and files beside them (AttemptRows).

**Hashes.** The laws hold for any function from bytes to strings. Where different bytes must not share a hash, that is a
hypothesis about the byte strings in play (NoCollision, SlicesDoNotCollide, CollisionFree, AllUnmistaken), never an axiom
about MD5. LocalReadsAgree is the same hypothesis for the slices a client reads from its local copy: ReadsAgree derives
it.

**Where the code does less than it seems to.**

- `MD5Update`'s loop counter is 32 bits wide: for some buffer fills and lengths just below 2^32 its guard holds where
  the unbounded one does not (CounterCanWrap). GuardIsExact says exactly when it is right, and Update requires that.
  `Md5Hasher::Update` casts its size to `unsigned int`.
- After a hash failure at the end of an attempt the .part is removed and the marks stay, so the next attempt finds a
  marked prefix without a .part. This is rank 2, and it is why a wrong .part costs three attempts.
- An exception while chunks are received leaves the task row Running, not Failed; nothing else does (RowAfter,
  RefusedLeavesRunning).
- The resume invariant holds for one version. Two versions have two task ids and one .part.
- Of several files with one content the index keeps one row. After a scan a path is found if and only if a record of it
  is followed by none of its path or its id (ScanFinds, SameContentTwice). In a session a committed file takes the row of
  a later file with the same hash, whose omitted chunks then fail (TakenRowStopsSession); where the next scan gives the
  row back this goes on for ever (NeverAcknowledged). CommitsWithoutLocal says exactly which files go through.
- No scan removes a row, and a row is believed: a file found identical by it is in place afterwards if and only if it was
  before (StaleRowHidesFile).
- `SyncWriter::Append` asks the stream before it is flushed. Bytes that are then lost are hashed and not in the file: a
  commit puts the hashed bytes in place if and only if every append reached the file (VerifyAndCommit).
- The index transaction takes an empty file_id for no row (UpsertIsExact).
- A tab-split drops an empty last field: harmless for a task's detail, fatal for a restore bundle with an empty root
  hash (BundleRoundTrip).
- A task report treats a recipient that exists and a new one alike if and only if it does not say "queued"
  (ReportsAgree).
- A retried receive counts as a retry only if it is refused: otherwise it starts with a fresh task, whose count is zero
  (RetriedTask). Entry ids with a '-' can share a task (TaskIdsClash), others cannot (TaskIdsApart).
- Task and recipient of a receive can disagree: AgreementBreaks says exactly after which operations.
- The frame size is cut to 32 bits while the payload is not (FrameSurvives).
- The string length check of the codec wraps at 2^64: an accepted string has the declared length if and only if its end
  does not wrap (LengthIsKept), and a length of 2^64 - 1 is accepted as an empty string (WrappedLengthIsAccepted).
- RunServer's "missing source path" answer is never sent (KnownFilesHaveSources).

## Model

| member | source | states |
|---|---|---|
| Md5.ScheduleRule | src/common/md5.c:88-157 | the 64 steps as tabulated follow the index and shift rules of section 3.4 of RFC 1321 |
| Md5.ShiftRule | src/common/md5.c:88-157 | in each round four shift counts take turns |
| Md5.F | include/netdisk/common/md5.h:12-12 | where x is one, y; elsewhere z |
| Md5.G | include/netdisk/common/md5.h:13-13 | where z is one, x; elsewhere y |
| Md5.H | include/netdisk/common/md5.h:14-14 | one where an odd number of x, y, z are |
| Md5.I | include/netdisk/common/md5.h:15-15 | where z is one, whether x and y differ; elsewhere the opposite of y |
| Md5Laws.RotationValue | include/netdisk/common/md5.h:16-16 | rotating by n places is multiplying by 2^n modulo 2^32 - 1, and only zero gives zero |
| Md5Laws.InitialWords | src/common/md5.c:14-17 | the initial words are the bytes 01 23 .. ef, fe .. 10, low-order first |
| Md5Laws.EncodedValue | src/common/md5.c:54-66 | the bytes of a word are the digits of its number to the base 256, lowest first |
| Md5Laws.DecodedValue | src/common/md5.c:67-79 | four bytes are read as the digits of a number, lowest first |
| Md5Laws.CodingInverts | src/common/md5.c:54-79 | encoding and decoding undo each other |
| Md5Laws.LengthValue | src/common/md5.c:43-53 | the eight bytes behind the padding are the length in bits modulo 2^64, lowest first |
| Md5Laws.SampleDigest | src/common/md5.c:80-162 | the digest of "message digest", through all 64 steps and their table, is the one section A.5 of RFC 1321 gives |
| Md5Laws.SampleHex | src/sync/hash.cpp:32-42 | the hasher prints that digest in hexadecimal |
| Md5.Round1 | src/common/md5.c:88-103 | the unrolled first round is sixteen steps of the schedule |
| Md5.Round2 | src/common/md5.c:106-121 | the same for the second round |
| Md5.Round3 | src/common/md5.c:124-139 | the same for the third round |
| Md5.Round4 | src/common/md5.c:142-157 | the same for the fourth round |
| Md5.Encode | src/common/md5.c:54-66 | words are written low-order byte first, in order |
| Md5.Decode | src/common/md5.c:67-79 | a block is read as sixteen words |
| Md5.Transform | src/common/md5.c:80-162 | the new state is the compression of old state and block |
| Md5Context.GuardIsExact | src/common/md5.c:19-42 | the 32-bit loop guard agrees with the unbounded one at every position the loop reaches if and only if CounterExact |
| Md5Context.CounterCanWrap | src/common/md5.c:33 | a concrete fill and length for which the guard is wrong |
| Md5Context.CountStep | src/common/md5.c:24-27 | after the carry the two words count 8 times the total length modulo 2^64 |
| Md5Context.PaddingIsPad | src/common/md5.c:5-8 | the first padlen bytes of PADDING and the length bytes are the padding of sections 3.1 and 3.2 of RFC 1321 |
| Md5Context.Context.Init | src/common/md5.c:10-18 | nothing has been fed |
| Md5Context.Context.Update | src/common/md5.c:19-42 | what was fed grows by the input, whatever the split into calls; state, buffer and counter stand for it |
| Md5Context.Context.AppendPadding | src/common/md5.c:43-51 | through Update, the fed message becomes its padded form, in full blocks |
| Md5Context.Context.Final | src/common/md5.c:43-53 | the digest is pad-then-fold of everything fed since Init |
| Hasher.HexAt | src/sync/hash.cpp:37-41 | each character is the hexadecimal digit of its half of its byte, high half first |
| Hasher.HexInjective | src/sync/hash.cpp:37-41 | different digests print differently |
| Hasher.ToHex | src/sync/hash.cpp:37-41 | the hex text of a digest, byte by byte |
| Hasher.Md5Hasher.Update | src/sync/hash.cpp:27-30 | only the size modulo 2^32 reaches the context |
| Hasher.Md5Hasher.FinalHex | src/sync/hash.cpp:32-42 | the hex digest of everything fed; the context goes on unchanged |
| Chunks.TilesNext | src/sync/chunker.cpp:49-64 | a tiling continues the file chunk by chunk |
| Chunks.CutSizes | src/sync/chunker.cpp:49-64 | all chunks but the last are full, so the first n sizes add up to min(n * chunk size, length) |
| Chunks.CutTiles | src/sync/chunker.cpp:43-66 | for every file and positive chunk size: indexes 0..n-1, contiguous offsets, non-empty slices, their hashes, sizes summing to the length |
| Chunks.IndexAndSizeFixOffset | src/sync/diff_engine.cpp:86-94 | equal index and size put a chunk at one offset of two files cut alike, although offsets are not compared |
| Chunker.Chunker.HashBuffer | src/sync/chunker.cpp:23-27 | MD5 of the buffer, independent of what was hashed before |
| Chunker.Chunker.ReadChunks | src/sync/chunker.cpp:43-66 | the read loop yields Cut of the file and the hash of the whole file, whatever the chunk size above 0 |
| Chunker.Chunker.BuildFileRecord | src/sync/chunker.cpp:29-76 | the record of a file: chunks, size, and root hash as file id |
| SyncWriter.SyncWriter.Begin | src/sync/sync_writer.cpp:11-27 | an empty .part, and a hasher that stands for it |
| SyncWriter.SyncWriter.Resume | src/sync/sync_writer.cpp:29-60 | the .part unchanged or created empty; the hasher stands for its bytes, read in 1 MiB blocks |
| SyncWriter.SyncWriter.Append | src/sync/sync_writer.cpp:62-81 | the bytes go to the .part and the hasher, or only some of them to the .part, unseen; a failed write leaves a first part and no agreement unless nothing was written |
| SyncWriter.SyncWriter.Abort | src/sync/sync_writer.cpp:106-114 | the .part is removed and the writer inactive |
| SyncWriter.SyncWriter.VerifyAndCommit | src/sync/sync_writer.cpp:83-104 | renames exactly when the writer is active, what was hashed has the expected root, and the rename works; otherwise removes; what is put in place is what was hashed if and only if every append reached the file; an inactive writer does nothing |
| ChunkReader.ReadAndVerify | src/sync/chunk_reader.cpp:10-38 | the slice if the file has it and it hashes to the chunk hash, else an exception |
| SyncClient.ComputeResumePrefixCount | apps/sync_v1/main.cpp:55-76 | the number of leading remote chunks whose mark agrees in hash, size and offset |
| SyncClient.ComputePrefixBytes | apps/sync_v1/main.cpp:78-88 | the sizes of the leading chunks with an index below the prefix |
| SyncClient.TrimCompletedChunks | apps/sync_v1/main.cpp:90-100 | the requested chunks with an index not below the prefix, in order |
| SyncClient.ReceiveChunks | apps/sync_v1/main.cpp:267-279 | one frame for each requested chunk, the first of an index kept, an error frame or the end of the stream ending it |
| SyncClient.FileSync.OpenWriter | apps/sync_v1/main.cpp:288-308 | resume on the marked prefix if the .part has its length, else start over; the states written are OpenTrace |
| SyncClient.FileSync.SupplyChunk | apps/sync_v1/main.cpp:316-330 | received bytes for requested chunks, else the verified local slice at the remote offset |
| SyncClient.FileSync.StoreChunk | apps/sync_v1/main.cpp:332-335 | append, mark and row update, in this order; a failed write fails the row |
| SyncClient.FileSync.Finish | apps/sync_v1/main.cpp:338-347 | verification, rename, marks cleared, row committed; or row failed |
| SyncClient.FileSync.Reconstruct | apps/sync_v1/main.cpp:310-354 | the loop over the remote chunks and the commit write exactly LoopTrace |
| SyncClient.FileSync.Sync | apps/sync_v1/main.cpp:243-354 | one attempt passes through exactly the persistent states of Trace and commits exactly when Commits says; a committed row counts all chunks, and exactly a failed one has one retry more |
| TaskProgress.AttemptRows | apps/sync_v1/main.cpp:254-353 | over the states of an attempt: every row written while it runs counts the leading chunks that are marked, verification begins with all of them marked and counted, the final file changes only while the row says verifying, only the last state fails or commits, and only failing counts a retry |
| TaskProgress.AttemptCounts | apps/sync_v1/main.cpp:254-353 | what an uninterrupted attempt leaves in the row: all chunks counted if committed, one retry more if failed |
| TaskProgress.CrashCountsNothing | apps/sync_v1/main.cpp:254-353 | an attempt interrupted before its end has counted no retry |
| Supplies.ReadIsExact | src/sync/chunk_reader.cpp:10-38 | a chunk is read if and only if the file has its bytes, with its hash; an empty one from any file that is there |
| Supplies.SupplyIsExact | apps/sync_v1/main.cpp:316-330 | a chunk that was asked for comes from the server only; any other from the local file, if and only if the first local chunk of its index has its hash and size and the bytes are there |
| Supplies.LookupIsFirst | apps/sync_v1/main.cpp:27-36 | of several local chunks of one index the first is used |
| Supplies.CollectKeepsFirst | apps/sync_v1/main.cpp:267-279 | of several frames for one chunk the first is kept, and every frame taken is a chunk frame |
| ClientRun.NameSamples | apps/sync_v1/main.cpp:38-40 | the path, the .part and the task id of a file |
| Diff.TrimInOrder | apps/sync_v1/main.cpp:90-100 | what a resumed attempt asks for keeps the order, and the multiplicity, of the request |
| SyncClient.BeginTask | apps/sync_v1/main.cpp:243-261 | the row running, then the marked prefix and the request for what lies behind it |
| SyncClient.FileSync.Rebuild | apps/sync_v1/main.cpp:281-354 | the rest of an attempt, once the frames are in, writes exactly the states of Rebuilding |
| Attempt.RowAfter | apps/sync_v1/main.cpp:254-353 | after every uninterrupted attempt the row is running, committed or failed: running if and only if too little arrived, committed if and only if the file is in place with the requested hash |
| Attempt.RefusedLeavesRunning | apps/sync_v1/main.cpp:272-274 | one error frame as the answer leaves the row running |
| CommitSafety.AttemptIsSafe | apps/sync_v1/main.cpp:237-357 | at every persistent state of an attempt no file but the .part differs, or only the job's file does, and it is a former .part with the requested hash |
| CommitSafety.CrashIsSafe | apps/sync_v1/main.cpp:310-354 | the same for whatever a crash leaves, torn appends included |
| CommitSafety.StepOfRun | apps/sync_v1/main.cpp:237-357 | one attempt of a run changes at most the job's file, to exactly the requested version |
| CommitSafety.CommitSafety | apps/sync_v1/main.cpp:237-357 | over every run of attempts, crashes and remote versions, a file at a path that is no .part is what it was at the start or a version some attempt requested for it |
| ResumeInvariant.PrefixBytesIsOffset | apps/sync_v1/main.cpp:78-88 | the resume prefix byte count is the offset of the first unmarked chunk |
| ResumeInvariant.LoopKeepsPrefix | apps/sync_v1/main.cpp:310-336 | from a right prefix the loop keeps the .part a first part of the version, also through a failed write |
| ResumeInvariant.OpenFits | apps/sync_v1/main.cpp:288-308 | the loop starts from a .part that is exactly the prefix it skips |
| ResumeInvariant.AttemptKeepsInv | apps/sync_v1/main.cpp:258-336 | every persistent state of an attempt keeps the resume invariant |
| ResumeInvariant.CrashKeepsInv | apps/sync_v1/main.cpp:258-336 | so does every crash, torn appends included |
| ResumeInvariant.ForeignKeepsInv | apps/sync_v1/main.cpp:237-357 | so do attempts and crashes for other files |
| ResumeInvariant.ResumeIsExact | apps/sync_v1/main.cpp:258-336 | at every crash point of every run for one version, a .part as long as the marked prefix is that prefix of the remote file |
| Convergence.AnswerArrives | apps/sync_v1/main.cpp:263-279 | with stable files the whole answer to the trimmed request arrives and is right |
| Convergence.SuppliedBehindPrefix | apps/sync_v1/main.cpp:310-330 | no chunk behind the marked prefix fails to be supplied |
| Convergence.RankOneCommits | apps/sync_v1/main.cpp:288-347 | nothing marked, or a right prefix: the attempt commits |
| Convergence.RankTwoAligns | apps/sync_v1/main.cpp:294-301 | a .part of the wrong length: the attempt commits if and only if the local file has every chunk of the marked prefix, which the trimmed request does not ask for again; otherwise it fails with marks and .part aligned |
| Convergence.RankThreeRejects | src/sync/sync_writer.cpp:88-91 | a wrong .part of the right length is rejected by the hash and removed; the final file is untouched |
| Convergence.Progress | apps/sync_v1/main.cpp:243-354 | an attempt commits or lowers the rank |
| Convergence.ConvergesInThree | apps/sync_v1/main.cpp:259-354 | from any marks and any .part, one of the first three uninterrupted attempts leaves the requested version in place, and the rank bounds which |
| Convergence.CommitsExactly | apps/sync_v1/main.cpp:258-347 | with stable files one attempt commits if and only if its rank is 1, or 2 with the marked prefix in the local file; otherwise the file stays and the next attempt starts from a smaller rank |
| Convergence.ThreeAreNeeded | apps/sync_v1/main.cpp:259-354 | over a wrong .part of the marked length the first attempt fails, and the third is needed if and only if the local file lacks a chunk of the version |
| Versions.VersionsShareThePart | apps/sync_v1/main.cpp:38-40 | two versions of a path have two task ids and one .part: two crashes reach the worst rank, where the resume invariant of the first version fails |
| Versions.WorstCaseIsReached | apps/sync_v1/main.cpp:38-40 | from a state two crashes reach, a new file commits in the third attempt and not before |
| Diff.BuildManifest | src/sync/diff_engine.cpp:39-54 | one manifest file for each record, in order, with a 32-bit chunk count |
| Diff.FirstAtIsFirst | src/sync/diff_engine.cpp:60-63 | of several records of one path the first is compared |
| Diff.IndexFiles | src/sync/diff_engine.cpp:60-63 | the first record of each relative path |
| Diff.IndexChunks | src/sync/diff_engine.cpp:29-35 | the first chunk of each index |
| Diff.CollectDiffering | src/sync/diff_engine.cpp:81-94 | exactly the remote chunks without a local chunk of equal index, hash and size, in order |
| Diff.Compare | src/sync/diff_engine.cpp:56-115 | identical files, missing files and requests are what Compared says |
| Diff.ComparePartitions | src/sync/diff_engine.cpp:65-112 | every manifest file is identical or requested, exactly once |
| Diff.SelectInOrder | src/sync/diff_engine.cpp:65-112 | both lists keep the manifest order |
| Diff.RequestIsExact | src/sync/diff_engine.cpp:81-110 | a request is an ordered part of the remote chunks; each omitted chunk has its local twin; if none differs the full list is asked for, even if empty |
| Delta.OmittedIsLocal | apps/sync_v1/main.cpp:322-330 | a chunk left out of the request is in the local file at the remote offset, and reads and verifies |
| Delta.DeltaReconstruction | apps/sync_v1/main.cpp:310-336 | requested bytes and local slices, joined in manifest order, are the remote file |
| Delta.ReadsAgree | src/sync/chunk_reader.cpp:10-38 | without colliding slices, a local read that verifies gives the version's bytes |
| Delta.CompareGivesStable | src/sync/diff_engine.cpp:56-115 | the request Compare makes meets what convergence asks for |
| Delta.DeltaSyncConverges | apps/sync_v1/main.cpp:203-378 | end to end on the client: request from Compare, record from the chunker, answering server: three attempts suffice |
| Decimal.DigitsOrder | src/network/protocol_codec.cpp:13-18 | of two numbers the lower is printed shorter, or as long and before the other |
| Decimal.DigitsEnds | src/network/protocol_codec.cpp:13-18 | no leading zero, and the last digit is the units digit |
| Decimal.ReadsLeadingNumber | src/network/protocol_codec.cpp:47-56 | stoull takes spaces, one sign and a number of at most 64 bits, ignores what follows, and gives a number behind a minus modulo 2^64 |
| Decimal.ReadsItsDigits | src/network/protocol_codec.cpp:42-56 | stoull reads back exactly the numbers that fit 64 bits |
| Wire.ConsumeU64 | src/network/protocol_codec.cpp:47-56 | number, cursor behind its newline, or an exception |
| Wire.ConsumeString | src/network/protocol_codec.cpp:19-40 | value and new cursor, or an exception, with 64-bit wrap-around of positions |
| Wire.AppendString | src/network/protocol_codec.cpp:12-17 | length, newline, value, newline |
| Wire.NumberAt | src/network/protocol_codec.cpp:42-56 | a printed number reads back anywhere in a buffer if and only if it fits 64 bits, and the cursor stops at its end |
| Wire.StringAt | src/network/protocol_codec.cpp:12-40 | a printed string reads back anywhere in a buffer, newlines and digits inside it included |
| Wire.LengthIsKept | src/network/protocol_codec.cpp:19-40 | an accepted string has the declared length if and only if its end does not wrap at 2^64 |
| Wire.WrappedLengthIsAccepted | src/network/protocol_codec.cpp:19-40 | the length 2^64 - 1 with nothing behind it is accepted as an empty string |
| Codec.EncodeManifestSummary | src/network/protocol_codec.cpp:83-102 | the loops print every file and chunk |
| Codec.EncodeMissingChunksRequest | src/network/protocol_codec.cpp:104-118 | the frame of a request |
| Codec.EncodeChunkData | src/network/protocol_codec.cpp:120-135 | the header and the payload, which may contain the delimiter |
| Codec.DecodeManifestSummary | src/network/protocol_codec.cpp:164-191 | the cursor loops read what ParseManifest says, errors included |
| Codec.DecodeMissingChunksRequest | src/network/protocol_codec.cpp:193-211 | the cursor loop reads what ParseRequest says, errors included |
| Codec.DecodeChunkData | src/network/protocol_codec.cpp:225-239 | header and payload, or an exception if the size differs |
| Wire.AppendU64 | src/network/protocol_codec.cpp:42-45 | the number and a newline |
| Wire.AppendBool | src/network/protocol_codec.cpp:58-60 | one digit and a newline |
| Wire.ConsumeBool | src/network/protocol_codec.cpp:62-64 | any number but 0 is true |
| Wire.BoolAt | src/network/protocol_codec.cpp:58-64 | a printed flag reads back anywhere in a buffer |
| Codec.EncodeHello | src/network/protocol_codec.cpp:74-81 | the frame of a hello |
| Codec.EncodeChunkHeader | src/network/protocol_codec.cpp:120-129 | the frame of a chunk header |
| Codec.EncodeSyncAck | src/network/protocol_codec.cpp:137-145 | the frame of an acknowledgement |
| Codec.EncodeError | src/network/protocol_codec.cpp:147-152 | the frame of an error |
| Codec.DecodeHello | src/network/protocol_codec.cpp:154-162 | three strings in order, or an exception |
| Codec.DecodeChunkHeader | src/network/protocol_codec.cpp:213-223 | the header fields in order, the index cut to 32 bits, or an exception |
| Codec.DecodeSyncAck | src/network/protocol_codec.cpp:241-250 | the fields in order, or an exception |
| Codec.DecodeError | src/network/protocol_codec.cpp:252-258 | the detail, or an exception |
| WireSamples.HelloSample | src/network/protocol_codec.cpp:74-81 | type and bytes of a hello |
| WireSamples.ManifestSample | src/network/protocol_codec.cpp:83-102 | type and bytes of a manifest |
| WireSamples.RequestSample | src/network/protocol_codec.cpp:104-118 | type and bytes of a request |
| WireSamples.DataSample | src/network/protocol_codec.cpp:120-135 | type and bytes of chunk data |
| WireSamples.AckSample | src/network/protocol_codec.cpp:137-145 | type and bytes of an acknowledgement |
| WireSamples.ErrorSample | src/network/protocol_codec.cpp:147-152 | type and bytes of an error |
| WireSamples.ChunksInOrder | src/network/protocol_codec.cpp:94-99 | a chunk list is written from the front |
| WireSamples.FilesInOrder | src/network/protocol_codec.cpp:87-100 | a file list is written from the front |
| Codec.FileReadsBack | src/network/protocol_codec.cpp:83-191 | a manifest file reads back if and only if it has fewer than 2^32 chunks |
| Codec.HelloAt | src/network/protocol_codec.cpp:74-162 | a hello reads back anywhere in a buffer |
| Codec.RequestReadsBack | src/network/protocol_codec.cpp:104-211 | a request with its chunk list reads back anywhere in a buffer |
| Codec.HeaderReadsBack | src/network/protocol_codec.cpp:120-223 | a chunk header reads back anywhere in a buffer |
| Codec.AckReadsBack | src/network/protocol_codec.cpp:137-250 | an acknowledgement reads back anywhere in a buffer |
| Codec.ManifestReadsBack | src/network/protocol_codec.cpp:83-191 | nested lists of files and chunks read back anywhere in a buffer |
| Codec.DataReadsBack | src/network/protocol_codec.cpp:120-239 | chunk data comes back if its header states its size, and is refused otherwise |
| Messages.ReadsBackWithResidue | src/network/protocol_codec.cpp:74-258 | for every message: decoding its encoding followed by any bytes gives the message and stops exactly at the end of the encoding |
| Messages.EncodingIsPrefixFree | src/network/protocol_codec.cpp:74-258 | no encoding starts another of its type, so concatenations are told apart |
| Framing.NetRoundTrip | src/network/transport.cpp:46-52 | byte order conversion and back |
| Framing.NetworkOrder | src/network/transport.cpp:46-52 | network order: the four bytes of a lower number come before those of a higher one |
| Framing.FrameLayout | src/network/transport.cpp:96-104 | a frame is its type, its size modulo 2^32, each in four bytes with the highest first, and its payload |
| Framing.TakenFrame | src/network/transport.cpp:106-130 | what a receive takes of any bytes: the low byte of the type, and as much payload as the size says |
| Framing.FrameSurvives | src/network/transport.cpp:96-130 | a frame is received as sent if and only if its payload is shorter than 2^32 |
| Framing.FramesSurvive | src/network/transport.cpp:96-130 | every sequence of such frames is received exactly, in order, and then the stream ends |
| Framing.BrokenStream | src/network/transport.cpp:30-44 | a stream cut after any number of bytes delivers a first part of the frames, all of them only if nothing was lost |
| Framing.StreamPrefix | src/network/transport.cpp:96-130 | the stream of the first frames of a list is a first part of the stream of all of them |
| Framing.MessagesArrive | src/network/transport.cpp:96-130 | composed with the codec, typed messages arrive in order as they were sent |
| Transport.WriteAll | src/network/transport.cpp:18-28 | for every schedule of partial sends: all bytes, or a first part and an exception |
| Transport.ReadExact | src/network/transport.cpp:30-44 | for every schedule of partial receives: exactly the next bytes, or false at the end of the stream |
| Transport.SocketEndpoint.Send | src/network/transport.cpp:96-104 | a frame goes out whole, or a first part of it and an exception |
| Transport.SocketEndpoint.Receive | src/network/transport.cpp:106-130 | the next frame of the stream, false exactly when there is none |
| Transport.SendFrames | src/network/transport.cpp:96-104 | a list of frames goes out as their stream, or a first part of it and an exception |
| Transport.ReceiveFrames | src/network/transport.cpp:106-130 | receiving until false takes exactly the frames of what is incoming |
| Transport.Connection | src/network/transport.cpp:96-130 | over one connection, for every schedule of partial sends and receives, what arrives is what was sent, or a first part of it |
| Transport.InMemoryEndpoint.Send | src/network/transport.cpp:60-65 | pushed at the end of the outbox |
| Transport.InMemoryEndpoint.Receive | src/network/transport.cpp:67-74 | the oldest frame of the inbox; nothing is lost, duplicated or reordered |
| Transport.CreateInMemoryTransportPair | src/network/transport.cpp:76-85 | what one end sends the other receives |
| Server.KnownFilesHaveSources | apps/sync_v1/main.cpp:168-172 | a file of the manifest has a source path |
| Server.RequestsAreFound | apps/sync_v1/main.cpp:102-111 | every request Compare makes of the server's manifest is found there, as the record it was made for |
| Server.FindsFirstFile | apps/sync_v1/main.cpp:102-111 | of several manifest files with one id and path the first is served |
| Server.SourceIsLast | apps/sync_v1/main.cpp:146-149 | of several records of one id the last one gives the source path |
| Server.RefusesUnknown | apps/sync_v1/main.cpp:160-166 | a request for an unknown file is answered by one error frame |
| Server.ServesUntilUnreadable | apps/sync_v1/main.cpp:174-184 | from any disk, chunks are sent in order with the header asked for, up to the first that cannot be read with its hash, which ends the server |
| Server.ServesChunks | apps/sync_v1/main.cpp:174-184 | a stable server sends one frame for each requested chunk, in order, with the file's bytes |
| Server.ScanGivesStableServer | apps/sync_v1/main.cpp:139-150 | a server that scanned its files into an index without rows of other paths, and lists it, is stable |
| Server.StableServerAnswers | apps/sync_v1/main.cpp:159-187 | such a server is the one convergence assumes |
| Server.SyncConverges | apps/sync_v1/main.cpp:132-378 | both disks, Compare, the server and the client together: three uninterrupted attempts suffice |
| Server.SyncConvergesApplies | apps/sync_v1/main.cpp:132-378 | the hypotheses of SyncConverges can be met for every version and chunk size |
| Session.FindFile | apps/sync_v1/main.cpp:102-111 | the first manifest file with this id and path |
| Session.SourcePaths | apps/sync_v1/main.cpp:146-149 | the last record of each id |
| Session.SendChunks | apps/sync_v1/main.cpp:174-184 | the chunk frames up to the first chunk that cannot be read, then an exception |
| Session.ServeRequest | apps/sync_v1/main.cpp:160-186 | the frames Serve specifies |
| Session.ServerTurn | apps/sync_v1/main.cpp:159-199 | one turn of the server loop: one frame consumed, its answer sent |
| Session.ReceiveRound | apps/sync_v1/main.cpp:267-279 | the client takes all frames of a round and succeeds exactly when each asked-for chunk came |
| Session.FileRound | apps/sync_v1/main.cpp:263-279 | a round leaves both directions empty, also when it fails, and succeeds exactly when the server has every chunk |
| Session.FetchChunks | apps/sync_v1/main.cpp:263-279 | the request is sent if anything is missing, and what is taken from its frames is what the specification collects, or nothing |
| Session.FinishFile | apps/sync_v1/main.cpp:281-357 | local record, reconstruction, commit and new index row, with the states of Rebuilding |
| Session.SyncFile | apps/sync_v1/main.cpp:237-357 | one file of the client over the link is one Step: the same persistent states, index and exceptions, the storage backend's included, and nothing left under way |
| Session.OtherFramesIgnored | apps/sync_v1/main.cpp:159-199 | frames that are neither requests nor acknowledgements change nothing; unreadable ones of those end the server |
| Session.Handshake | apps/sync_v1/main.cpp:151-219 | hello and then manifest are sent, and the client gets the manifest |
| Session.SendAck | apps/sync_v1/main.cpp:369-376 | the last frame is an acknowledgement, which the server reads as a success |
| Session.AcknowledgedOnce | apps/sync_v1/main.cpp:237-376 | an acknowledged session ends with exactly one acknowledgement, which says success; a session that stops sends none |
| Session.RunSession | apps/sync_v1/main.cpp:151-377 | both programs over one link: nothing is left under way, whatever happens; disk and index pass through exactly the states of the loop over the requests of Compare; acknowledged if and only if that loop goes through, and then by one frame, the last, that the server reads as a success |
| ClientLaws.SessionIsSafe | apps/sync_v1/main.cpp:237-368 | at every persistent state of a session a file that is no .part of a request is what it was, or a requested file in place with the hash of the manifest |
| ClientLaws.AcknowledgedMeansInPlace | apps/sync_v1/main.cpp:237-375 | after an acknowledged session every requested file is in place, whatever the server sent |
| ClientLaws.NoLocalFails | apps/sync_v1/main.cpp:322-353 | a chunk left out of the request, with no row or no file at the path, ends the session; no final file changes and the chunk is not marked |
| ClientLaws.TakenRowStopsSession | apps/sync_v1/main.cpp:281-357 | for any server: committing a file whose hash is indexed at another requested path takes that row away, and a file with a chunk omitted for that row then fails |
| WithoutLocal.AttemptLacks | apps/sync_v1/main.cpp:322-353 | without a local record or a local file, a chunk that was left out of the request behind the marked prefix keeps the attempt from committing; final file and the chunk's mark stay |
| WithoutLocal.CommitsWithoutLocal | apps/sync_v1/main.cpp:281-347 | with stable files, but the local record gone since the request was made or the file gone before, an attempt commits if and only if its rank is 1 and every chunk behind the marked prefix was asked for |
| StableClient.TaskIsStable | apps/sync_v1/main.cpp:231-282 | with stable files and an index as a scan leaves it, every attempt whose row is there and not stale is one for which convergence was proved |
| StableClient.EndsWithoutRow | apps/sync_v1/main.cpp:281-347 | the attempt for a record whose row or file is gone commits if and only if its rank is 1 and nothing was left out behind the marked prefix |
| StableClient.StepLeaves | apps/sync_v1/main.cpp:237-360 | a file goes through if and only if its attempt commits; then it is in place and indexed, and otherwise file and index are as they were |
| StableClient.StepExactly | apps/sync_v1/main.cpp:237-357 | one file whose row is there and not stale goes through if and only if its rank is 1, or 2 with the marked prefix in the local file; otherwise the session stops and the next attempt starts from a smaller rank |
| StableClient.OtherStaysIndexed | apps/sync_v1/main.cpp:237-357 | a file of a session leaves files and marks of another alone, and takes its index row exactly if it is committed and the row has its hash |
| StableClient.SettledStays | apps/sync_v1/main.cpp:237-357 | what a session assumes holds again after each of its files, committed or not |
| ClientConvergence.SessionAsks | apps/sync_v1/main.cpp:230-231 | the requests of a session are those for the records whose indexed hash differs, each made from what is indexed at its path |
| ClientConvergence.FirstFiles | apps/sync_v1/main.cpp:237-368 | after the first files of a session it goes on if and only if they commit, given the rows taken and the files gone; if it stopped, the work left has shrunk or a file counted on a chunk out of reach |
| ClientSessions.SessionExactly | apps/sync_v1/main.cpp:203-376 | a session with stable files is acknowledged if and only if every requested file commits: with its local chunks if it is ready, and without, when an earlier file takes the row or the file is gone, if its rank is 1 and nothing is left out behind the marked prefix |
| ClientSessions.LosingIsNotAcknowledged | apps/sync_v1/main.cpp:237-376 | a session in which a file counts on a local chunk that is out of reach, behind its marked prefix, is not acknowledged |
| ClientSessions.ApartLosesNothing | apps/sync_v1/main.cpp:237-357 | no chunk is out of reach where no row is stale and no local file at one record's place has the hash of another |
| ClientSessions.SyncedExactly | apps/sync_v1/main.cpp:203-376 | for any server and index: an acknowledged session leaves every file of the server in place if and only if those it found identical were in place before |
| ClientSessions.AcknowledgedIsSynced | apps/sync_v1/main.cpp:203-376 | with an index as a scan leaves it, an acknowledged session leaves every file of any server in place if and only if no file found identical is gone |
| ClientSessions.ScanGivesIndexed | apps/sync_v1/main.cpp:210-213 | after a scan that meets every indexed file that is there, every row is right or stale, whatever its order |
| ClientSessions.ClientConverges | apps/sync_v1/main.cpp:203-376 | with stable files, from any marks, .part files and rows: of 2n + 1 runs of the client against n files one is acknowledged, with every file in place if none was found identical and gone, or counts on a chunk out of reach; and such a run is not acknowledged |
| ClientSessions.StaleRowHidesFile | src/sync/diff_engine.cpp:74-79 | a file found identical by its row is in place after the session if and only if it was before |
| Swapped.NeverAcknowledged | apps/sync_v1/main.cpp:203-376 | for any hash and chunk size, two stable files, the content of one being at the local path of the other and sharing its last chunk, for which no number of full scans and sessions from an empty index is ever acknowledged |
| Swapped.NeverWithMd5 | apps/sync_v1/main.cpp:203-376 | the same with MD5 and chunks of 4 MiB, for first chunks and files that MD5 tells apart |
| OneFile.ThreeRuns | apps/sync_v1/main.cpp:203-376 | the hypotheses of the law of convergence can be met: three runs of a new client against any one file, with no chunk out of reach |
| FileIndex.Database.UpsertFile | src/metadata/metadata_store.cpp:805-883 | the statements in order; a failed one rolls everything back |
| FileIndex.InsertsExactly | src/metadata/metadata_store.cpp:861-876 | chunk inserts work exactly when the indexes differ, and add exactly the chunks |
| FileIndex.UpsertIsExact | src/metadata/metadata_store.cpp:805-883 | the transaction fails only for a repeated chunk index or an empty id at the path; else both keys and all chunk owners are in order, and the file has its row and exactly its chunks |
| FileIndex.OtherFilesUntouched | src/metadata/metadata_store.cpp:805-883 | a file with another id and another path keeps its row and its chunks |
| FileIndex.RunsStayValid | src/metadata/metadata_store.cpp:503-522 | file_id unique, absolute_path unique, every chunk row owned by a live file, over all runs |
| FileIndex.RegularRunsSucceed | src/metadata/metadata_store.cpp:805-883 | a run of chunker records never violates the path constraint |
| FileIndex.ListedHalves | src/metadata/metadata_store.cpp:1678-1700 | in a chunk listing indexes from 2^31 on come first; within each half they rise |
| FileIndex.ListingIsUnique | src/metadata/metadata_store.cpp:1678-1700 | the ordered chunk list of a file is determined by its rows |
| FileIndex.UpsertedIsFetched | src/metadata/metadata_store.cpp:1219-1275 | both lookups return exactly the file just upserted, chunks in order |
| FileIndex.CutIsInOrder | src/sync/chunker.cpp:43-66 | the chunker's chunks keep their order in the table, up to 2^31 chunks |
| FileIndex.ScanKeepsWinners | src/metadata/metadata_store.cpp:805-883 | after any scan a path is found with the last file written there, unless its id was written to another path later |
| FileIndex.ScanFinds | src/metadata/metadata_store.cpp:805-883 | after any scan a path is found if and only if some record of it is followed by none of its path or its id, and then with that row |
| FileIndex.SameContentTwice | src/metadata/metadata_store.cpp:805-883 | of two files with one content the one scanned first is not found |
| FileIndex.ScanReplaces | src/metadata/metadata_store.cpp:805-883 | after a scan into any index each row is that of a scanned record with exactly its chunks, or an older row at a path not scanned |
| FileIndex.Database.ListChunks | src/metadata/metadata_store.cpp:1678-1700 | exactly the chunks of the file, in the order of the signed index |
| FileIndex.Database.GetFileByPath | src/metadata/metadata_store.cpp:1219-1275 | the file of the row at the path with its chunks, if there is one |
| FileIndex.Database.ListFiles | src/metadata/metadata_store.cpp:1530-1555 | the file of each row once, with its chunks, in the order of the absolute paths |
| Lines.SplitBy | src/control_plane/control_node_server.cpp:104-112 | a getline loop is Split |
| Lines.SplitJoin | src/control_plane/control_node_server.cpp:104-112 | splitting gives joined fields back, but for an empty last one |
| Lines.TrimCarriageReturn | src/control_plane/control_node_server.cpp:206-220 | one carriage return at the end of a line goes |
| Lines.LinesArrive | src/control_plane/control_node_server.cpp:206-220 | lines joined, terminated and read by the client arrive as they were sent |
| TaskText.NamesReadBack | src/control_plane/control_node_server.cpp:41-65 | domain and state names are read back |
| TaskText.Sanitize | src/control_plane/control_node_server.cpp:508-513 | tab, newline and carriage return become spaces, in place |
| TaskText.HandlePullTasks | src/control_plane/control_node_server.cpp:494-521 | the response text for the node's queued tasks |
| TaskText.PullTasks | src/control_plane/control_node_server.cpp:579-631 | the client's reading of a response |
| TaskText.LineReadsBack | src/control_plane/control_node_server.cpp:595-628 | a line reads back as its task, also when the detail is empty and the split drops it |
| TaskText.QueuedInOrder | src/control_plane/control_node_server.cpp:494-505 | queued tasks are listed in table order |
| TaskText.LineSample | src/control_plane/control_node_server.cpp:507-516 | the fields of a task line and their order |
| TaskText.NameSamples | src/control_plane/control_node_server.cpp:41-65 | the names of domains and states |
| TaskText.ResponseSample | src/control_plane/control_node_server.cpp:494-521 | the response: count, lines, END |
| TaskText.PullRoundTrip | src/control_plane/control_node_server.cpp:494-631 | for any task table and node the client gets exactly the queued tasks, in order, details sanitised |
| RestoreText.HandleGetRestore | src/control_plane/control_node_server.cpp:414-440 | the bundle text if request, stored object and file record are there, else an error |
| RestoreText.FetchRestoreBundle | src/control_plane/control_node_server.cpp:734-780 | the client's reading of a bundle |
| RestoreText.BundleParts | src/control_plane/control_node_server.cpp:414-440 | the twenty fields of a bundle, by position |
| RestoreText.BundleRoundTrip | src/control_plane/control_node_server.cpp:414-780 | every transmitted field comes back, empty ones and state names included, if and only if the root hash is not empty |
| SharedTables.ReplaceIsUpdate | src/transfer/shared_library_service.cpp:159-163 | replacing the first match among distinct recipients is a map update |
| SharedTables.AppendIsUpdate | src/transfer/shared_library_service.cpp:164-171 | so is adding a recipient |
| SharedTables.Store.GetSharedLibraryEntry | src/metadata/metadata_store.cpp:1171-1217 | entry and recipients as stored, distinct by node |
| SharedTables.Store.UpsertSharedLibraryEntry | src/metadata/metadata_store.cpp:734-803 | succeeds exactly when no node repeats; then row and recipients are replaced, else rolled back |
| SharedLibrary.FindRecipientIndex | src/transfer/shared_library_service.cpp:30-37 | the first recipient with the node, if any |
| SharedLibrary.Service.PublishEntry | src/transfer/shared_library_service.cpp:78-90 | refused without its required fields; an exception if a node repeats; else stored |
| SharedLibrary.Service.CreateReceiveTask | src/transfer/shared_library_service.cpp:136-176 | not found, expired and delivered refused; else task queued and recipient pending |
| SharedLibrary.Service.ReceiveEntry | src/transfer/shared_library_service.cpp:178-253 | each outcome leaves the recipient and the task its rule says |
| SharedLibrary.Service.RetryReceive | src/transfer/shared_library_service.cpp:255-276 | task requeued, recipient reopened, then a receive |
| SharedLibrary.Service.MarkDelivered | src/transfer/shared_library_service.cpp:278-307 | the recipient delivered with its path |
| SharedLibrary.Service.UpdateTaskState | src/control_plane/task_scheduler.cpp:12-21 | state and detail of a task that exists |
| SharedLibrary.Service.FailRecipient | src/transfer/shared_library_service.cpp:205-232 | the failure branches of a receive: the recipient failed with the message, if there is one |
| SharedLibrary.Service.CleanupExpired | src/transfer/shared_library_service.cpp:366-382 | an entry is expired afterwards if and only if it was, or its time is set and not after now; those of the latter are counted; recipients stay |
| SharedLibrary.Service.ListPendingEntriesForNode | src/transfer/shared_library_service.cpp:338-360 | an entry is listed if and only if it is unexpired, of another owner and not delivered to the node |
| SharedLibrary.Service.ReportTask | src/control_plane/control_node_server.cpp:345-411 | task updated, the target's recipient set or added, delivered recomputed over all |
| LibraryLaws.RunsKeepInv | src/transfer/shared_library_service.cpp:136-382 | over all runs: recipient rows under their own node for exactly the entries, transfer tasks named by entry and node |
| SharedLibrary.StoredUpdate | src/metadata/metadata_store.cpp:761-796 | the recipient list of a loaded entry with one recipient replaced or added repeats no node, so the plain INSERTs of the upsert work |
| SharedLibrary.Service.StoreRecipient | src/transfer/shared_library_service.cpp:159-176 | the upsert of such a list succeeds, without a key violation |
| LibraryLaws.OtherRecipientsStay | src/transfer/shared_library_service.cpp:136-382 | an operation writes no recipient row but its own |
| LibraryLaws.DeliveryStays | src/transfer/shared_library_service.cpp:136-382 | a delivery is taken back if and only if the entry is published again without it, a receive on it fails at source, copy or check, a retry of it does not land, or a report on it does not say completed |
| LibraryLaws.ReceiveEndsTheWait | src/transfer/shared_library_service.cpp:178-253 | a receive that lands ends the node's wait; one that fails leaves the entry waiting |
| LibraryTasks.ReceiveTask | src/transfer/shared_library_service.cpp:178-253 | the task after a receive, by outcome: fresh and queued, or the one that was there if delivered before; completed with the path if a file lands; no other task changes |
| LibraryTasks.ReceiveRecipient | src/transfer/shared_library_service.cpp:178-253 | the recipient row after a receive, by outcome, with path, error and time |
| LibraryTasks.ReceiveRow | src/transfer/shared_library_service.cpp:178-253 | the status of a receive, by outcome; entries change only in the delivered flag, when a file lands |
| LibraryTasks.RetriedTask | src/transfer/shared_library_service.cpp:255-276 | the task after a retry: requeued with one retry more where the receive is refused, else a fresh one, completed if a file lands |
| LibraryTasks.ReportEffect | src/control_plane/control_node_server.cpp:345-411 | state and detail of the task, the recipient row of its target, and the entry delivered if and only if all recipients are |
| LibraryTasks.CleanupEffect | src/transfer/shared_library_service.cpp:366-382 | exactly the entries with a time not after now expire, and nothing else changes |
| LibraryTasks.PublishEffect | src/transfer/shared_library_service.cpp:78-90 | a published entry has the recipients it came with, or its nodes as delivered, and no others |
| LibraryTasks.PublishRefuses | src/transfer/shared_library_service.cpp:78-90 | refused without id, owner or name, and by an exception if a node is named twice |
| LibraryTasks.CreateEffect | src/transfer/shared_library_service.cpp:136-176 | when a receive task is refused and how, and what it leaves otherwise |
| LibraryTasks.DeliverEffect | src/transfer/shared_library_service.cpp:278-307 | a delivery sets the recipient and the entry and no task |
| LibraryTasks.WaitingIs | src/transfer/shared_library_service.cpp:338-360 | an entry waits for a node if it is live, of another owner and not delivered to it |
| TaskAgreement.AgreementBreaks | src/transfer/shared_library_service.cpp:136-307 | task completed if and only if delivered: kept by every operation but exactly those that deliver without the task, fail on what was delivered, publish another delivery, or complete a lost entry |
| TaskAgreement.TaskIdsApart | src/transfer/shared_library_service.cpp:150-150 | entry ids without a - never share a task id |
| TaskAgreement.TaskIdsClash | src/transfer/shared_library_service.cpp:150-150 | two pairs of entry and node with one task id |
| LibraryLaws.ReportsAgree | src/control_plane/control_node_server.cpp:373-395 | a report gives an existing recipient and a new one the same state if and only if it does not say queued |
| MirrorRules.KeysAreDistinct | src/storage/storage_backend.cpp:60-67 | ids of one length have distinct paths under one root |
| MirrorRules.StoreKeepsInv | src/storage/storage_backend.cpp:54-82 | storing a verified file keeps the mirror content-addressed, also when it overwrites |
| MirrorRules.RunsKeepInv | src/backup/backup_service.cpp:148-165 | over any run of indexing, backups, restores and writes outside the mirror, every row's key names bytes that hash to its id |
| MirrorRules.RestoreVerifies | src/backup/recovery_service.cpp:115-160 | after any run a restore to a path outside the mirror passes verification if and only if the file row still exists |
| Mirror.MirrorSite.VerifyFile | src/storage/integrity_checker.cpp:10-31 | true if and only if the file exists with the size and root hash of its record |
| Mirror.MirrorSite.StoreFile | src/storage/storage_backend.cpp:54-82 | the copy under its key and the row for it |
| BackupLaws.BackupHolds | src/backup/backup_service.cpp:148-165 | after a backup into a content-addressed mirror that ends Completed, every file has a row whose key names bytes with its hash, and the mirror is content-addressed |
| BackupLaws.RowsNameTheirSource | src/storage/storage_backend.cpp:54-82 | each row has the key of the last file with its id, and that file as source |
| BackupLaws.BackupLeavesAlone | src/backup/backup_service.cpp:148-165 | the index, files outside the mirror and rows of other ids stay, however the backup ends |
| BackupLaws.CompletesExactly | src/backup/backup_service.cpp:148-165 | a backup ends Completed if and only if each file, when its turn comes, is there with size and hash, under a root, and is not its own key |
| BackupLaws.CompletesFromOutside | src/backup/backup_service.cpp:148-165 | for files outside the mirror this is decided before the backup starts |
| BackupLaws.BackedUpRestores | src/backup/recovery_service.cpp:115-160 | after any run, a completed backup and any further run, each file of the backup restores with its hash if and only if its index row is there |
| BackupLaws.RestoreIsExact | src/backup/recovery_service.cpp:115-169 | in any state: when a restore ends Restored, hash check included, and that only the target changes |
| BackupLaws.ExtensionKept | src/storage/storage_backend.cpp:63-67 | the key keeps the last dot of the name and what follows |
| BackupLaws.NoExtension | src/storage/storage_backend.cpp:63-67 | a name without a dot behind its first character adds nothing to the key |
| BackupLaws.KeySample | src/storage/storage_backend.cpp:60-67 | the key of one file |
| Mirror.MirrorSite.ExecuteBackup | src/backup/backup_service.cpp:148-165 | files verified and stored one by one until one fails; if none does, all are in the mirror with their hashes |
| Mirror.MirrorSite.ExecuteRestore | src/backup/recovery_service.cpp:115-169 | lookups, copy and verification as Restore says |
| Mirror.RestoreVerifiesMd5 | src/backup/recovery_service.cpp:39-59 | the restore law for the system's own hash |
| Mirror.FindLatestBackupRecord | src/backup/recovery_service.cpp:24-37 | the first of the latest records of a node and path |

## Left out

- Sockets, accept and connect, file streams, directory iteration, clocks, FastDFS, the JSON loader, logging, argument handling and printing: files are byte strings, a connection is two byte streams, times are parameters.
- Failures to open or create a file, and a full disk other than in Append: not modelled; a write that fails, a rename that fails and a missing local file are.
- Two processes on one database or one directory at the same time.
- Scanner: which paths are visited is not modelled; the index laws hold for any list of records, and the laws of whole runs for any scan that meets every indexed file that is there.
- SQLite itself: tables are maps, transactions atomic, a power loss inside a transaction is not modelled.
- SyncClient.FileSync.Sync: error texts and the constant columns of sync_tasks rows are not part of the row; sums of sizes are unbounded.
- TaskProgress.AttemptRows: for chunks numbered from zero, fewer than 2^32, and marks without a gap, which every attempt keeps; it says nothing of marks with a gap, which no attempt leaves.
- Md5Context.Context.Update: requires CounterExact, the exact condition for the 32-bit counter, because beyond it the code reads other bytes than the input.
- IHasher and Clone: Md5Hasher is the only hasher.
- Codec.DecodeManifestSummary: the reserve calls may throw for absurd counts; here such a message fails only when its bytes run out.
- Codec.DecodeMissingChunksRequest: likewise for its one reserve call.
- Decoders on bytes no encoder writes: modelled, with stoull's leniency, but nothing is claimed about them beyond Wire.ConsumeU64 and Wire.ConsumeString.
- Session.SyncFile: that backend.StoreFile throws is modelled, what it copies and the row for it (apps/sync_v1/main.cpp:359-360) are not; `local_root / relative_path` is the joined text, so an absolute or not normalised relative path is not modelled.
- Attempt.Trace: every byte of an append that succeeds reaches the file; SyncWriter.Append also has the appends that do not, unseen, and VerifyAndCommit says what they do to a commit.
- Session.RunSession: the two programs are interleaved where the client waits for the server; the in-memory link stands for the socket, whose framing laws are in Framing and Transport.
- ChunkReader.ReadAndVerify: requires a chunk size the hasher takes in one call (below 2^32 - 64), as do the members of Session and SyncClient that read or append chunks; the chunker cuts at 4 MiB.
- FileIndex.Database.UpsertFile: the status column and negative 64-bit values are not modelled.
- The in-memory metadata store, whose UpsertFile replaces only the first match of either key.
- SharedLibrary.Service.ReceiveEntry: what the file system does is a parameter, and the records it writes for the received file are not part of the state; PublishFile's copying likewise.
- SharedLibrary.Service.CleanupExpired: the removal of the expired entry's file is not modelled.
- SharedLibrary.Service.ReportTask: the restore-request branch (src/control_plane/control_node_server.cpp:352-364) is not modelled.
- Backup jobs, policies, audit, device records, replicas, authentication: one-branch upserts and filters.
- Mirror.MirrorSite.ExecuteBackup: verification and copy of one file are one step; a file changing in between is not modelled.
- GET_SHARED_ENTRY and the space-separated commands.
