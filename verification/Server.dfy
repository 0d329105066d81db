/** RunServer's answer to one request, and why it is the answer convergence needs. */
module Server {
  import opened Base
  import opened Chunks
  import opened Attempt
  import opened CommitSafety
  import opened Convergence
  import opened Diff
  import opened Delta
  import opened Codec
  import opened Messages
  import I = FileIndex

  /** records: the index after the scan at start-up. files: the disk. */
  datatype State = State(records: seq<FileRecord>, files: map<Path, Bytes>)

  const UNKNOWN_FILE := Text("unknown file in missing chunk request")
  const MISSING_SOURCE := Text("missing source path for file request")

  function ManifestFiles(records: seq<FileRecord>): (m: seq<ManifestFile>)
    ensures |m| == |records| && forall i | 0 <= i < |records| :: m[i] == ManifestOf(records[i])
  {
    seq(|records|, i requires 0 <= i < |records| => ManifestOf(records[i]))
  }

  function FindRemoteFile(manifest: seq<ManifestFile>, fileId: Str, path: Path): (r: Option<ManifestFile>)
    ensures r.Some? ==>
              r.value in manifest && r.value.summary.fileId == fileId && r.value.summary.relativePath == path
    ensures r.None? ==> forall f | f in manifest :: f.summary.fileId != fileId || f.summary.relativePath != path
  {
    if manifest == [] then None
    else if manifest[0].summary.fileId == fileId && manifest[0].summary.relativePath == path then Some(manifest[0])
    else FindRemoteFile(manifest[1..], fileId, path)
  }

  /** source_paths: the last record of an id wins. */
  function SourceOf(records: seq<FileRecord>, fileId: Str): Option<Path> {
    if records == [] then None
    else
      var last := records[|records| - 1];
      if last.fileId == fileId then Some(last.absolutePath) else SourceOf(records[..|records| - 1], fileId)
  }

  lemma {:induction false} SourceIsRecorded(records: seq<FileRecord>, fileId: Str)
    ensures var r := SourceOf(records, fileId);
            && (r.Some? <==> exists f :: f in records && f.fileId == fileId)
            && (r.Some? ==> exists f :: f in records && f.fileId == fileId && f.absolutePath == r.value)
  {
    if records != [] {
      var front, last := records[..|records| - 1], records[|records| - 1];
      assert records == front + [last];
      SourceIsRecorded(front, fileId);
      assert last in records;
    }
  }

  /** The frames sent for a request; thrown: an exception then ended the server. */
  datatype Served = Served(out: seq<Message>, thrown: bool)

  function DataFor(fileId: Str, c: ChunkEntry, bytes: Bytes): Message {
    Deliver(ChunkData(ChunkHeader(fileId, c.hash, c.index, c.offset, |bytes|), bytes))
  }

  function ServeChunks(h: Hash, files: map<Path, Bytes>, path: Path, fileId: Str, chunks: seq<ChunkEntry>): (r: Served)
    ensures |r.out| <= |chunks| && (!r.thrown ==> |r.out| == |chunks|)
    ensures forall m | m in r.out :: m.Deliver?
  {
    if chunks == [] then Served([], false)
    else
      var front := ServeChunks(h, files, path, fileId, chunks[..|chunks| - 1]);
      var c := chunks[|chunks| - 1];
      if front.thrown then front
      else
        var bytes := ReadAndVerify(h, files, path, c);
        if bytes.None? then Served(front.out, true)
        else Served(front.out + [DataFor(fileId, c, bytes.value)], false)
  }

  function Serve(h: Hash, s: State, request: ChunksRequest): Served {
    var file := FindRemoteFile(ManifestFiles(s.records), request.fileId, request.relativePath);
    var source := SourceOf(s.records, request.fileId);
    if file.None? then Served([Complain(UNKNOWN_FILE)], false)
    else if source.None? then Served([Complain(MISSING_SOURCE)], false)
    else ServeChunks(h, s.files, source.value, request.fileId, request.missing)
  }

  /** The second error is never sent: a file of the manifest has a source path. */
  lemma KnownFilesHaveSources(s: State, fileId: Str, path: Path)
    requires FindRemoteFile(ManifestFiles(s.records), fileId, path).Some?
    ensures SourceOf(s.records, fileId).Some?
  {
    var f := FindRemoteFile(ManifestFiles(s.records), fileId, path).value;
    var i :| 0 <= i < |s.records| && ManifestFiles(s.records)[i] == f;
    assert s.records[i] in s.records;
    SourceIsRecorded(s.records, fileId);
  }

  /** A scanned record describes its file, and its id is the file's hash. */
  ghost predicate Scanned(h: Hash, files: map<Path, Bytes>, r: FileRecord, chunkSize: nat) {
    && r.absolutePath in files && ChunkCount(|files[r.absolutePath]|, chunkSize) < TWO_32
    && r.chunks == Cut(h, files[r.absolutePath], chunkSize)
    && r.fileId == r.rootHash == h(files[r.absolutePath])
  }

  ghost predicate StableServer(h: Hash, s: State, chunkSize: nat) {
    && chunkSize > 0
    && (forall r | r in s.records :: Scanned(h, s.files, r, chunkSize))
    && (forall i, j | 0 <= i < j < |s.records| :: s.records[i].fileId != s.records[j].fileId)
  }

  /** What a scan hands to the index: each record describes a file, within the width of SQLite's ordering. */
  ghost predicate ScanOf(h: Hash, files: map<Path, Bytes>, scan: seq<FileRecord>, chunkSize: nat) {
    forall f | f in scan :: Scanned(h, files, f, chunkSize) && |f.chunks| <= TWO_32 / 2 && f.fileId != []
  }

  lemma ScanIsRegular(h: Hash, files: map<Path, Bytes>, scan: seq<FileRecord>, chunkSize: nat)
    requires ScanOf(h, files, scan, chunkSize)
    ensures forall f | f in scan :: I.Regular(f) && I.InOrder(f.chunks)
  {
    forall f | f in scan
      ensures I.Regular(f) && I.InOrder(f.chunks)
    {
      I.CutIsInOrder(h, files[f.absolutePath], chunkSize);
    }
  }

  /**
   A server that scanned its files and lists its index is stable, whatever order the scan took, and whichever of several
   files with one content it kept: every older row has to be at a path the scan met.
   */
  lemma ScanGivesStableServer(
    h: Hash, files: map<Path, Bytes>, chunkSize: nat, t: I.Tables, scan: seq<FileRecord>, records: seq<FileRecord>)
    requires chunkSize > 0 && ScanOf(h, files, scan, chunkSize) && I.Valid(t) && [] !in t.rows
    requires forall id | id in t.rows :: exists f :: f in scan && f.absolutePath == t.rows[id].absolutePath
    requires I.ListsFiles(I.AfterAll(t, scan), records)
    ensures StableServer(h, State(records, files), chunkSize)
  {
    hide Scanned, I.InOrder, I.Fetches, I.Recorded;
    ScanIsRegular(h, files, scan, chunkSize);
    I.FullScanRecords(t, scan);
    I.ListedAreRecorded(I.AfterAll(t, scan), records, scan);
  }

  lemma SourceOfRecord(h: Hash, s: State, chunkSize: nat, r: FileRecord)
    requires StableServer(h, s, chunkSize) && r in s.records
    ensures SourceOf(s.records, r.fileId) == Some(r.absolutePath)
  {
    SourceIsRecorded(s.records, r.fileId);
    var source := SourceOf(s.records, r.fileId);
    var f :| f in s.records && f.fileId == r.fileId && f.absolutePath == source.value;
    var i :| 0 <= i < |s.records| && s.records[i] == r;
    var j :| 0 <= j < |s.records| && s.records[j] == f;
    assert i == j;
  }

  /** Every request Compare makes of this server's manifest is for a record it finds. */
  lemma RequestsAreFound(h: Hash, s: State, chunkSize: nat, local: seq<FileRecord>, request: ChunksRequest)
    requires StableServer(h, s, chunkSize)
    requires request in Compared(local, ManifestFiles(s.records)).requests
    ensures exists r ::
              && r in s.records && request == RequestFor(local, ManifestOf(r))
              && FindRemoteFile(ManifestFiles(s.records), request.fileId, request.relativePath) == Some(ManifestOf(r))
  {
    var manifest := ManifestFiles(s.records);
    var other := Select(local, manifest, false);
    var k :| 0 <= k < |Compared(local, manifest).requests| && Compared(local, manifest).requests[k] == request;
    assert other[k] in other && other[k] in manifest;
    var i :| 0 <= i < |manifest| && manifest[i] == other[k];
    var r := s.records[i];
    var found := FindRemoteFile(manifest, request.fileId, request.relativePath);
    assert manifest[i] in manifest && found.Some?;
    var j :| 0 <= j < |manifest| && manifest[j] == found.value;
    assert i == j;
    assert r in s.records;
  }

  /** A stable server sends one chunk frame for each chunk requested of a record, in order, with the file's bytes. */
  lemma {:induction false} ServesChunks(
    h: Hash, files: map<Path, Bytes>, path: Path, fileId: Str, all: seq<ChunkEntry>, chunks: seq<ChunkEntry>)
    requires path in files && Tiles(h, all, files[path]) && forall c | c in chunks :: c in all
    ensures !ServeChunks(h, files, path, fileId, chunks).thrown
    ensures forall i | 0 <= i < |chunks| ::
              && InFile(chunks[i], files[path])
              && ServeChunks(h, files, path, fileId, chunks).out[i]
                 == DataFor(fileId, chunks[i], Slice(chunks[i], files[path]))
  {
    hide Tiles;
    if chunks != [] {
      var n := |chunks|;
      assert forall c | c in chunks[..n - 1] :: c in chunks;
      ServesChunks(h, files, path, fileId, all, chunks[..n - 1]);
      assert chunks[n - 1] in chunks;
      var k :| 0 <= k < |all| && all[k] == chunks[n - 1];
      TiledChunk(h, all, files[path], k);
    }
  }

  lemma TiledChunk(h: Hash, chunks: seq<ChunkEntry>, content: Bytes, k: nat)
    requires Tiles(h, chunks, content) && k < |chunks|
    ensures InFile(chunks[k], content) && chunks[k].size > 0 && chunks[k].hash == h(Slice(chunks[k], content))
  {
    assert TileAt(h, chunks, content, k);
  }

  // ---------- What the client makes of the answer ----------

  function ReplyOf(m: Message): Reply {
    if m.Deliver? then Data(m.data.header.index, m.data.bytes) else Refused
  }

  function Replies(out: seq<Message>): (r: seq<Reply>)
    ensures |r| == |out|
  {
    seq(|out|, i requires 0 <= i < |out| => ReplyOf(out[i]))
  }

  /** The frames a client gets from this server, as a function of what it asks of one file. */
  function ServeFile(h: Hash, s: State, f: ManifestEntry): seq<ChunkEntry> -> seq<Reply> {
    request => Replies(Serve(h, s, ChunksRequest(f.fileId, f.relativePath, f.rootHash, request)).out)
  }

  /** A stable server is the server that convergence assumes. */
  lemma StableServerAnswers(h: Hash, s: State, chunkSize: nat, r: FileRecord, job: Job)
    requires StableServer(h, s, chunkSize) && r in s.records
    requires job.chunks == r.chunks
    requires forall c | c in job.missing :: c in job.chunks
    requires job.serve == ServeFile(h, s, ManifestOf(r).summary)
    ensures r.absolutePath in s.files && Answers(job, s.files[r.absolutePath])
  {
    var content := s.files[r.absolutePath];
    assert Scanned(h, s.files, r, chunkSize);
    CutTiles(h, content, chunkSize);
    forall request: seq<ChunkEntry> | forall c | c in request :: c in job.missing && InFile(c, content)
      ensures job.serve(request) == Answer(request, content)
    {
      ServedAnswer(h, s, chunkSize, r, request);
    }
  }

  lemma ServedAnswer(h: Hash, s: State, chunkSize: nat, r: FileRecord, request: seq<ChunkEntry>)
    requires StableServer(h, s, chunkSize) && r in s.records && r.absolutePath in s.files
    requires Tiles(h, r.chunks, s.files[r.absolutePath])
    requires forall c | c in request :: c in r.chunks && InFile(c, s.files[r.absolutePath])
    ensures var served := Serve(h, s, ChunksRequest(r.fileId, r.relativePath, r.rootHash, request));
            && !served.thrown && |served.out| == |request|
            && Replies(served.out) == Answer(request, s.files[r.absolutePath])
  {
    SourceOfRecord(h, s, chunkSize, r);
    var i :| 0 <= i < |s.records| && s.records[i] == r;
    assert ManifestFiles(s.records)[i] in ManifestFiles(s.records);
    hide StableServer, Tiles;
    assert FindRemoteFile(ManifestFiles(s.records), r.fileId, r.relativePath).Some?;
    ServesChunks(h, s.files, r.absolutePath, r.fileId, r.chunks, request);
  }

  /**
   The whole path, from both disks: a client job whose request Compare made of a stable server's manifest, answered by
   that server, puts the server's file in place within three attempts that are not interrupted.
   */
  lemma SyncConverges(h: Hash, server: State, chunkSize: nat, r: FileRecord, s: Disk, job: Job)
    requires StableServer(h, server, chunkSize) && r in server.records
    requires job.chunks == r.chunks && job.root == r.rootHash && job.faults == NO_FAULTS
    requires job.missing == MissingOf(job.local, job.chunks)
    requires job.serve == ServeFile(h, server, ManifestOf(r).summary)
    requires job.local.Some? ==>
               && job.path in s.files && ChunkCount(|s.files[job.path]|, chunkSize) < TWO_32
               && job.local.value == Cut(h, s.files[job.path], chunkSize)
    requires r.absolutePath in server.files
    requires job.path in s.files ==> SlicesDoNotCollide(h, r.chunks, s.files[job.path], server.files[r.absolutePath])
    requires CollisionFree(h, s, job, server.files[r.absolutePath], 3)
    ensures exists j ::
              1 <= j <= 3 && HasCommitted(Attempts(h, s, job, j), job, server.files[r.absolutePath])
  {
    hide Cut, ChunkCount, HasCommitted, SlicesDoNotCollide, CollisionFree, Answers;
    MissingAreRemote(job.local, job.chunks);
    hide MissingOf;
    StableServerAnswers(h, server, chunkSize, r, job);
    assert Scanned(h, server.files, r, chunkSize);
    hide StableServer;
    DeltaSyncConverges(h, s, job, server.files[r.absolutePath], chunkSize);
  }

  lemma MissingAreRemote(local: Option<seq<ChunkEntry>>, remote: seq<ChunkEntry>)
    ensures forall c | c in MissingOf(local, remote) :: c in remote
  {
  }

  /** The hypotheses of SyncConverges hold for every version and chunk size, with the identity for a hash. */
  lemma SyncConvergesApplies(content: Bytes, chunkSize: nat) returns (server: State, r: FileRecord, s: Disk, job: Job)
    requires chunkSize > 0 && ChunkCount(|content|, chunkSize) < TWO_32
    ensures var h: Hash := x => x;
            && StableServer(h, server, chunkSize) && r in server.records
            && r.absolutePath in server.files && server.files[r.absolutePath] == content
            && job.chunks == r.chunks && job.root == r.rootHash && job.faults == NO_FAULTS
            && job.missing == MissingOf(job.local, job.chunks) && job.local.None? && job.path !in s.files
            && job.serve == ServeFile(h, server, ManifestOf(r).summary)
            && CollisionFree(h, s, job, content, 3)
  {
    var h: Hash := x => x;
    var path: Path := [];
    r := FileRecord(content, path, path, |content|, 0, 0, content, Cut(h, content, chunkSize));
    server := State([r], map[path := content]);
    s := Disk(map[], map[], map[]);
    job := Job(path, [], r.chunks, content, r.chunks, None, ServeFile(h, server, ManifestOf(r).summary), NO_FAULTS);
    hide Cut, Trace, PartContents;
    assert Scanned(h, server.files, r, chunkSize);
  }

  // ---------- Any server, stable or not ----------

  /** The file found is the first of the manifest with this id and path. */
  lemma {:induction false} FindsFirstFile(manifest: seq<ManifestFile>, fileId: Str, path: Path)
    ensures var r := FindRemoteFile(manifest, fileId, path);
            r.Some? ==>
              exists k :: 0 <= k < |manifest| && manifest[k] == r.value &&
                forall j | 0 <= j < k ::
                  manifest[j].summary.fileId != fileId || manifest[j].summary.relativePath != path
  {
    var r := FindRemoteFile(manifest, fileId, path);
    if r.Some? && !(manifest[0].summary.fileId == fileId && manifest[0].summary.relativePath == path) {
      var rest := manifest[1..];
      FindsFirstFile(rest, fileId, path);
      var k :| 0 <= k < |rest| && rest[k] == r.value
               && forall j | 0 <= j < k :: rest[j].summary.fileId != fileId || rest[j].summary.relativePath != path;
      assert manifest[k + 1] == rest[k];
      assert forall j | 0 < j < k + 1 :: manifest[j] == rest[j - 1];
    }
  }

  /** The source of an id is the path of the last record that has it. */
  lemma {:induction false} SourceIsLast(records: seq<FileRecord>, fileId: Str)
    ensures var r := SourceOf(records, fileId);
            r.Some? ==>
              exists k :: 0 <= k < |records| && records[k].fileId == fileId && records[k].absolutePath == r.value &&
                forall j | k < j < |records| :: records[j].fileId != fileId
  {
    if records != [] && records[|records| - 1].fileId != fileId {
      SourceIsLast(records[..|records| - 1], fileId);
    }
  }

  /** A request for a file that is not in the manifest is answered by one error frame, and the server goes on. */
  lemma RefusesUnknown(h: Hash, s: State, request: ChunksRequest)
    requires forall r | r in s.records :: r.fileId != request.fileId || r.relativePath != request.relativePath
    ensures Serve(h, s, request) == Served([Complain(UNKNOWN_FILE)], false)
  {
    assert forall i | 0 <= i < |s.records| ::
        s.records[i] in s.records && ManifestFiles(s.records)[i] == ManifestOf(s.records[i]);
    hide ServeChunks, SourceOf;
  }

  /**
   Whatever is on the disk, a request is served from its front, each chunk with the header of what was asked for, up to
   the first chunk that cannot be read with its hash; that one ends the server.
   */
  lemma {:induction false} ServesUntilUnreadable(
    h: Hash, files: map<Path, Bytes>, path: Path, fileId: Str, chunks: seq<ChunkEntry>)
    ensures var r := ServeChunks(h, files, path, fileId, chunks);
            && (r.thrown <==> exists i :: 0 <= i < |chunks| && ReadAndVerify(h, files, path, chunks[i]).None?)
            && (r.thrown ==> |r.out| < |chunks| && ReadAndVerify(h, files, path, chunks[|r.out|]).None?)
            && forall i | 0 <= i < |r.out| ::
                 var bytes := ReadAndVerify(h, files, path, chunks[i]);
                 bytes.Some? && r.out[i] == Deliver(ChunkData(
                   ChunkHeader(fileId, chunks[i].hash, chunks[i].index, chunks[i].offset, |bytes.value|), bytes.value))
  {
    hide ReadAndVerify;
    if chunks != [] {
      ServesUntilUnreadable(h, files, path, fileId, chunks[..|chunks| - 1]);
    }
  }
}
