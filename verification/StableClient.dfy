/** One file of a session with stable files: when its attempt goes through, and what it leaves for the other files. */
module StableClient {
  import opened Base
  import opened Chunks
  import opened Attempt
  import opened CommitSafety
  import opened ResumeInvariant
  import opened Convergence
  import opened Diff
  import opened Delta
  import opened Server
  import opened WithoutLocal
  import opened ClientRun
  import opened ClientLaws
  import I = FileIndex

  /** Where the client puts a file of the server. */
  function Where(env: Environment, r: FileRecord): Path { PathOf(env.root, r.relativePath) }

  /** The request for a record, from what is indexed at its path, and the attempt for it. */
  ghost function RequestOf(env: Environment, t: I.Tables, r: FileRecord): ChunksRequest {
    ChunksRequest(r.fileId, r.relativePath, r.rootHash, MissingOf(LocalAt(t, Where(env, r)), r.chunks))
  }

  ghost function TaskOf(h: Hash, env: Environment, t: I.Tables, r: FileRecord): Job {
    JobOf(h, env, t, ManifestOf(r), RequestOf(env, t, r))
  }

  // ---------- What is assumed ----------

  /** The task of a record, whatever is asked of it. */
  function TaskIdFor(r: FileRecord): TaskId {
    TaskIdOf(ChunksRequest(r.fileId, r.relativePath, r.rootHash, []))
  }

  /** The server's files go to different places: no two share a path, a .part or a task. */
  ghost predicate Tidy(env: Environment) {
    forall r, u | r in env.server.records && u in env.server.records ::
      && r.relativePath != u.relativePath + PART
      && (r.relativePath == u.relativePath || TaskIdFor(r) == TaskIdFor(u) ==> r == u)
  }

  /** What the index has at a path is the file there, as the chunker sees it, or is left of a file that is not. */
  ghost predicate IndexedAt(h: Hash, env: Environment, c: ClientState, path: Path) {
    var id := I.IdAt(c.index, path);
    id.Some? && path in c.disk.files ==>
      && ChunkCount(|c.disk.files[path]|, env.chunkSize) <= TWO_32 / 2
      && id.value == c.index.rows[id.value].rootHash == h(c.disk.files[path])
      && I.OwnChunks(c.index, id.value, Cut(h, c.disk.files[path], env.chunkSize))
  }

  /** The files of an index are below the root. */
  ghost predicate Rooted(t: I.Tables, root: Path) {
    && I.Valid(t) && [] !in t.rows
    && forall id | id in t.rows :: t.rows[id].absolutePath == PathOf(root, t.rows[id].relativePath)
  }

  /** An index as a scan of the client's root leaves it. */
  ghost predicate Indexed(h: Hash, env: Environment, c: ClientState) {
    Rooted(c.index, env.root) && forall r | r in env.server.records :: IndexedAt(h, env, c, Where(env, r))
  }

  /** The row at a record's path is all that is left of its file. */
  ghost predicate Stale(env: Environment, c: ClientState, r: FileRecord) {
    I.IdAt(c.index, Where(env, r)).Some? && Where(env, r) !in c.disk.files
  }

  /** No slice of a local file collides with its counterpart in the server's version. */
  ghost predicate SlicesApart(h: Hash, env: Environment, s: Disk)
    requires forall r | r in env.server.records :: r.absolutePath in env.server.files
  {
    forall r | r in env.server.records && Where(env, r) in s.files ::
      SlicesDoNotCollide(h, r.chunks, s.files[Where(env, r)], env.server.files[r.absolutePath])
  }

  ghost predicate StableServing(h: Hash, env: Environment) {
    && StableServer(h, env.server, env.chunkSize) && Tidy(env)
    && (forall r | r in env.server.records :: r.fileId != [] && |r.chunks| <= TWO_32 / 2)
    && forall q :: env.faults(q) == NO_FAULTS && !env.storeFails(q)
  }

  ghost predicate Settled(h: Hash, env: Environment, c: ClientState) {
    StableServing(h, env) && Indexed(h, env, c) && SlicesApart(h, env, c.disk)
  }

  function ContentOf(env: Environment, r: FileRecord): Bytes
    requires r.absolutePath in env.server.files
  {
    env.server.files[r.absolutePath]
  }

  // ---------- The attempt for one record ----------

  lemma LocalIsCut(h: Hash, env: Environment, c: ClientState, path: Path)
    requires IndexedAt(h, env, c, path) && (I.IdAt(c.index, path).Some? ==> path in c.disk.files)
    ensures LocalAt(c.index, path)
         == if I.IdAt(c.index, path).None? then None else Some(Cut(h, c.disk.files[path], env.chunkSize))
  {
    var id := I.IdAt(c.index, path);
    if id.None? {
      FetchedIsLocal(c.index, path, None);
    } else {
      var row, chunks := c.index.rows[id.value], Cut(h, c.disk.files[path], env.chunkSize);
      I.CutIsInOrder(h, c.disk.files[path], env.chunkSize);
      hide Cut;
      FetchedIsLocal(c.index, path, Some(FileRecord(
        id.value, row.relativePath, row.absolutePath, row.size, row.mtime, row.mode, row.rootHash, chunks)));
    }
  }

  predicate DistinctIds(records: seq<FileRecord>) {
    forall i, j | 0 <= i < j < |records| :: records[i].fileId != records[j].fileId
  }

  lemma FindsOnce(env: Environment, r: FileRecord)
    requires DistinctIds(env.server.records) && r in env.server.records
    ensures FindRemoteFile(ManifestFiles(env.server.records), r.fileId, r.relativePath) == Some(ManifestOf(r))
  {
    var records := env.server.records;
    var found := FindRemoteFile(ManifestFiles(records), r.fileId, r.relativePath);
    var i :| 0 <= i < |records| && records[i] == r;
    assert ManifestFiles(records)[i] in ManifestFiles(records);
    var j :| 0 <= j < |records| && ManifestFiles(records)[j] == found.value;
    assert records[j] in records && i == j;
  }

  lemma FindsRecord(h: Hash, env: Environment, r: FileRecord)
    requires StableServing(h, env) && r in env.server.records
    ensures FindRemoteFile(ManifestFiles(env.server.records), r.fileId, r.relativePath) == Some(ManifestOf(r))
  {
    hide FindRemoteFile, Tidy, Scanned;
    FindsOnce(env, r);
  }

  /** An attempt of such a session is one for which convergence was proved, unless its row is stale. */
  lemma TaskIsStable(h: Hash, env: Environment, c: ClientState, r: FileRecord)
    requires Settled(h, env, c) && r in env.server.records && !Stale(env, c, r)
    ensures Scanned(h, env.server.files, r, env.chunkSize)
    ensures Stable(h, c.disk.files, TaskOf(h, env, c.index, r), ContentOf(env, r))
  {
    assert Scanned(h, env.server.files, r, env.chunkSize);
    var job, content := TaskOf(h, env, c.index, r), ContentOf(env, r);
    LocalIsCut(h, env, c, job.path);
    hide Cut, LocalAt, SlicesDoNotCollide, Tiles, Answers, LocalReadsAgree, ChunkCount, I.Valid, I.IdAt, I.OwnChunks;
    CutTiles(h, content, env.chunkSize);
    MissingAreRemote(job.local, job.chunks);
    hide MissingOf;
    StableServerAnswers(h, env.server, env.chunkSize, r, job);
    hide StableServer, Tidy;
    ReadsAgree(h, c.disk.files, job, content);
    CompareGivesStable(h, job, content, c.disk.files, env.chunkSize);
  }

  /** The request is for this record, whatever it asks. */
  predicate For(q: ChunksRequest, r: FileRecord) {
    q.fileId == r.fileId && q.relativePath == r.relativePath
  }

  /** The attempt for a request made earlier, with what is indexed now. */
  ghost function TaskWith(h: Hash, env: Environment, t: I.Tables, r: FileRecord, q: ChunksRequest): Job {
    JobOf(h, env, t, ManifestOf(r), q)
  }

  /** Whatever is left out of a request, the server would send it. */
  lemma TaskIsAnswered(h: Hash, env: Environment, c: ClientState, r: FileRecord, q: ChunksRequest)
    requires Settled(h, env, c) && r in env.server.records && For(q, r)
    ensures Scanned(h, env.server.files, r, env.chunkSize)
    ensures AnswersAll(h, c.disk.files, TaskWith(h, env, c.index, r, q), ContentOf(env, r))
  {
    assert Scanned(h, env.server.files, r, env.chunkSize);
    var job, content := TaskWith(h, env, c.index, r, q), ContentOf(env, r);
    hide Cut, LocalAt, SlicesDoNotCollide, Tiles, Answers, LocalReadsAgree, ChunkCount, I.Valid, I.IdAt, I.OwnChunks;
    CutTiles(h, content, env.chunkSize);
    StableServerAnswers(h, env.server, env.chunkSize, r, job.(missing := job.chunks));
    hide StableServer, Tidy, Indexed;
    ReadsAgree(h, c.disk.files, job, content);
  }

  /** The attempt for this record commits: nothing or a right .part to resume, or a prefix the local file has as well. */
  ghost predicate Ready(h: Hash, env: Environment, c: ClientState, r: FileRecord)
    requires r.absolutePath in env.server.files
  {
    var job := TaskOf(h, env, c.index, r);
    var rank := Rank(c.disk, job, ContentOf(env, r));
    rank == 1 || (rank == 2 && PrefixIsLocal(h, c.disk, job))
  }

  /** It commits without its index row: nothing or a right .part to resume, and nothing left out behind it. */
  ghost predicate ReadyAlone(h: Hash, env: Environment, c: ClientState, r: FileRecord)
    requires r.absolutePath in env.server.files
  {
    var job := TaskOf(h, env, c.index, r);
    Rank(c.disk, job, ContentOf(env, r)) == 1 && AsksBehind(c.disk, job)
  }

  /** No .part of the attempt collides with the version. */
  ghost predicate Unmistaken(h: Hash, env: Environment, c: ClientState, r: FileRecord, q: ChunksRequest)
    requires r.absolutePath in env.server.files
  {
    var job := TaskWith(h, env, c.index, r, q);
    NoCollision(h, PartContents(Trace(h, c.disk, job), job.path), ContentOf(env, r))
  }

  /** What commits is the version; what does not leaves the file. */
  ghost predicate Tried(h: Hash, env: Environment, c: ClientState, r: FileRecord, q: ChunksRequest)
    requires r.absolutePath in env.server.files
  {
    For(q, r) && Ended(h, c.disk, TaskWith(h, env, c.index, r, q), ContentOf(env, r))
  }

  /** With the row still there, the attempt commits if and only if the record is ready, and else comes nearer. */
  lemma EndsWithRow(h: Hash, env: Environment, c: ClientState, r: FileRecord)
    requires Settled(h, env, c) && !Stale(env, c, r) && r in env.server.records && r.absolutePath in env.server.files
    requires Unmistaken(h, env, c, r, RequestOf(env, c.index, r))
    ensures Tried(h, env, c, r, RequestOf(env, c.index, r))
    ensures var job, content := TaskOf(h, env, c.index, r), ContentOf(env, r);
            && (Commits(h, c.disk, job) <==> Ready(h, env, c, r))
            && (!Commits(h, c.disk, job) ==> Rank(After(h, c.disk, job), job, content) < Rank(c.disk, job, content))
  {
    hide Stable, PrefixIsLocal, NoCollision, Trace, Rank, Scanned, HasCommitted, Commits, AsksBehind;
    TaskIsStable(h, env, c, r);
    hide Settled;
    CommitsExactly(h, c.disk, TaskOf(h, env, c.index, r), ContentOf(env, r));
  }

  /** With row or file gone, whatever the request counted on, it commits if and only if rank 1 has nothing left out. */
  lemma EndsWithoutRow(
    h: Hash, env: Environment, c: ClientState, r: FileRecord, q: ChunksRequest, l: Option<seq<ChunkEntry>>)
    requires Settled(h, env, c) && r in env.server.records && r.absolutePath in env.server.files && For(q, r)
    requires LocalAt(c.index, Where(env, r)).None? || Where(env, r) !in c.disk.files
    requires q.missing == MissingOf(l, r.chunks)
    requires Unmistaken(h, env, c, r, q)
    ensures Tried(h, env, c, r, q)
    ensures var job := TaskWith(h, env, c.index, r, q);
            Commits(h, c.disk, job) <==> Rank(c.disk, job, ContentOf(env, r)) == 1 && AsksBehind(c.disk, job)
  {
    hide AnswersAll, NoCollision, Trace, Rank, Scanned, HasCommitted, Commits, AsksBehind, MissingOf, Ended;
    TaskIsAnswered(h, env, c, r, q);
    hide Settled;
    CommitsWithoutLocal(h, c.disk, TaskWith(h, env, c.index, r, q), l, ContentOf(env, r));
  }

  lemma CutIsDistinct(h: Hash, content: Bytes, chunkSize: nat)
    requires ChunkCount(|content|, chunkSize) <= TWO_32 / 2
    ensures I.DistinctIndexes(Cut(h, content, chunkSize))
  {
    I.CutIsInOrder(h, content, chunkSize);
  }

  /** The record written after a commit is always stored. */
  lemma RefreshedIsStored(h: Hash, env: Environment, c: ClientState, r: FileRecord, q: ChunksRequest)
    requires Settled(h, env, c) && r in env.server.records && r.absolutePath in env.server.files && For(q, r)
    ensures var f := Refreshed(h, env, q, ContentOf(env, r));
            && f.fileId == r.fileId && f.chunks == r.chunks && f.absolutePath == Where(env, r)
            && f.relativePath == r.relativePath && f.rootHash == r.fileId && I.Upsert(c.index, f).Ok?
  {
    assert Scanned(h, env.server.files, r, env.chunkSize);
    CutIsDistinct(h, ContentOf(env, r), env.chunkSize);
    hide Cut, StableServer, I.Upsert;
    I.UpsertIsExact(c.index, Refreshed(h, env, q, ContentOf(env, r)));
  }

  /**
   The file and the row a step leaves: the version, in place and indexed, if and only if the attempt commits; otherwise
   both as they were, and the session stops.
   */
  lemma StepLeaves(h: Hash, env: Environment, c: ClientState, r: FileRecord, q: ChunksRequest)
    requires Settled(h, env, c) && r in env.server.records && r.absolutePath in env.server.files
    requires Tried(h, env, c, r, q)
    ensures var p, job := Step(h, env, c, q), TaskWith(h, env, c.index, r, q);
            var f := Refreshed(h, env, q, ContentOf(env, r));
            && p.client.disk == After(h, c.disk, job) && (p.going <==> Commits(h, c.disk, job))
            && (p.going ==> HasCommitted(p.client.disk, job, ContentOf(env, r)))
            && I.Upsert(c.index, f).Ok? && f.fileId == f.rootHash == r.fileId && f.chunks == r.chunks
            && f.absolutePath == Where(env, r) && f.relativePath == r.relativePath
            && p.client.index == (if p.going then I.Upsert(c.index, f).value else c.index)
            && FileAt(p.client.disk, Where(env, r))
               == if p.going then Some(ContentOf(env, r)) else FileAt(c.disk, Where(env, r))
  {
    hide Trace, Rank, I.Upsert, Refreshed, Scanned, AsksBehind, Indexed, SlicesApart, StableServer, Tidy;
    FindsRecord(h, env, r);
    RefreshedIsStored(h, env, c, r, q);
  }

  /**
   One file of a session with stable files whose row is still there: it goes on if and only if the record is ready,
   leaving the version in place and indexed; otherwise the session stops, file and index are as they were, and the next
   attempt starts from a smaller rank.
   */
  lemma StepExactly(h: Hash, env: Environment, c: ClientState, r: FileRecord)
    requires Settled(h, env, c) && !Stale(env, c, r) && r in env.server.records && r.absolutePath in env.server.files
    requires Unmistaken(h, env, c, r, RequestOf(env, c.index, r))
    ensures var job, content := TaskOf(h, env, c.index, r), ContentOf(env, r);
            var p := Step(h, env, c, RequestOf(env, c.index, r));
            && (p.going <==> Ready(h, env, c, r))
            && p.client.disk == After(h, c.disk, job)
            && (p.going ==>
                  && HasCommitted(p.client.disk, job, content)
                  && var u := I.Upsert(c.index, Refreshed(h, env, RequestOf(env, c.index, r), content));
                     u.Ok? && p.client.index == u.value)
            && (!p.going ==>
                  && p.client.index == c.index && FileAt(p.client.disk, job.path) == FileAt(c.disk, job.path)
                  && Rank(p.client.disk, job, content) < Rank(c.disk, job, content))
  {
    hide Settled, Unmistaken, Ready, Rank, HasCommitted, Commits, I.Upsert, Refreshed, Step, Tried, After;
    EndsWithRow(h, env, c, r);
    StepLeaves(h, env, c, r, RequestOf(env, c.index, r));
  }

  // ---------- The other records ----------

  lemma PathsApart(env: Environment, r: FileRecord, u: FileRecord)
    requires Tidy(env) && r in env.server.records && u in env.server.records && r != u
    ensures Where(env, r) != Where(env, u) && TempOf(Where(env, r)) != TempOf(Where(env, u))
    ensures Where(env, r) != TempOf(Where(env, u)) && Where(env, u) != TempOf(Where(env, r))
    ensures TaskIdFor(r) != TaskIdFor(u)
  {
    var n := |env.root| + 1;
    assert Where(env, r)[n..] == r.relativePath && Where(env, u)[n..] == u.relativePath;
    assert TempOf(Where(env, r))[n..] == r.relativePath + PART && TempOf(Where(env, u))[n..] == u.relativePath + PART;
    assert (r.relativePath + PART)[..|r.relativePath|] == r.relativePath;
    assert (u.relativePath + PART)[..|u.relativePath|] == u.relativePath;
  }

  /** A record's file, .part and marks are as before. */
  ghost predicate SameFiles(env: Environment, s: Disk, t: Disk, r: FileRecord) {
    var path := Where(env, r);
    && FileAt(t, path) == FileAt(s, path) && FileAt(t, TempOf(path)) == FileAt(s, TempOf(path))
    && MarksOf(t, TaskIdFor(r)) == MarksOf(s, TaskIdFor(r))
  }

  /** An attempt leaves the files and marks of every other record alone. */
  lemma OtherFilesStay(h: Hash, env: Environment, c: ClientState, r: FileRecord, q: ChunksRequest, u: FileRecord)
    requires Tidy(env) && r in env.server.records && u in env.server.records && r != u && For(q, r)
    ensures SameFiles(env, c.disk, After(h, c.disk, TaskWith(h, env, c.index, r, q)), u)
  {
    var job, path := TaskWith(h, env, c.index, r, q), Where(env, u);
    PathsApart(env, r, u);
    assert job.id == TaskIdFor(r);
    hide Tidy, Trace, LocalAt, MarksOf;
    AttemptIsSafe(h, c.disk, job);
    var d := After(h, c.disk, job);
    assert d in Trace(h, c.disk, job);
    SafeAt(h, c.disk, d, job, PartContents(Trace(h, c.disk, job), job.path), path);
    SafeAt(h, c.disk, d, job, PartContents(Trace(h, c.disk, job), job.path), TempOf(path));
    AttemptKeepsMarks(h, c.disk, job, TaskIdFor(u));
  }

  /** Storing a record takes the row of another path away if it has the same id, and otherwise leaves row and chunks. */
  lemma OtherRowAfter(t: I.Tables, f: FileRecord, path: Path)
    requires I.Valid(t) && I.Upsert(t, f).Ok? && path != f.absolutePath
    ensures var v, id := I.Upsert(t, f).value, I.IdAt(t, path);
            && I.IdAt(v, path) == (if id == Some(f.fileId) then None else id)
            && (id.Some? && id.value != f.fileId ==>
                  && v.rows[id.value] == t.rows[id.value]
                  && forall chunks :: I.OwnChunks(t, id.value, chunks) ==> I.OwnChunks(v, id.value, chunks))
  {
    hide I.Upsert, I.Valid;
    I.OtherPathAfter(t, f, path);
    var v, id := I.Upsert(t, f).value, I.IdAt(t, path);
    if id.Some? && id.value != f.fileId {
      I.OtherFilesUntouched(t, f, id.value);
      forall chunks | I.OwnChunks(t, id.value, chunks)
        ensures I.OwnChunks(v, id.value, chunks)
      {
        SameOwnChunks(t, v, id.value, chunks);
      }
    }
  }

  lemma SameOwnChunks(t: I.Tables, v: I.Tables, id: Str, chunks: seq<ChunkEntry>)
    requires I.OwnChunks(t, id, chunks)
    requires forall i: nat :: ((id, i) in v.chunks <==> (id, i) in t.chunks)
                              && ((id, i) in t.chunks ==> v.chunks[(id, i)] == t.chunks[(id, i)])
    ensures I.OwnChunks(v, id, chunks)
  {
    forall i | 0 <= i < |chunks|
      ensures (id, chunks[i].index) in v.chunks && v.chunks[(id, chunks[i].index)] == I.ChunkRowOf(chunks[i])
    {
      assert (id, chunks[i].index) in t.chunks;
    }
    forall k | k in v.chunks && k.0 == id
      ensures exists i :: 0 <= i < |chunks| && chunks[i].index == k.1
    {
      assert k == (id, k.1) && k in t.chunks;
    }
  }

  /** The row at a record's path after one for another was stored, or not. */
  ghost predicate RowSince(env: Environment, t: I.Tables, v: I.Tables, r: FileRecord, stored: bool, u: FileRecord) {
    var id := I.IdAt(t, Where(env, u));
    I.IdAt(v, Where(env, u)) == if stored && id == Some(r.fileId) then None else id
  }

  lemma StaysIndexedAt(h: Hash, env: Environment, c: ClientState, d: ClientState, path: Path)
    requires IndexedAt(h, env, c, path) && FileAt(d.disk, path) == FileAt(c.disk, path)
    requires var id := I.IdAt(c.index, path);
             I.IdAt(d.index, path).Some? ==>
               && I.IdAt(d.index, path) == id && d.index.rows[id.value] == c.index.rows[id.value]
               && forall chunks :: I.OwnChunks(c.index, id.value, chunks) ==> I.OwnChunks(d.index, id.value, chunks)
    ensures IndexedAt(h, env, d, path)
  {
    hide I.OwnChunks, Cut, ChunkCount;
  }

  /**
   A file of a session changes of another its index row at most, and that only by taking it: when it is committed and the
   row has its hash.
   */
  lemma OtherStaysIndexed(h: Hash, env: Environment, c: ClientState, r: FileRecord, q: ChunksRequest, u: FileRecord)
    requires Settled(h, env, c) && r.absolutePath in env.server.files && Tried(h, env, c, r, q)
    requires r in env.server.records && u in env.server.records && r != u
    ensures var p := Step(h, env, c, q);
            && SameFiles(env, c.disk, p.client.disk, u) && IndexedAt(h, env, p.client, Where(env, u))
            && RowSince(env, c.index, p.client.index, r, p.going, u)
  {
    StepLeaves(h, env, c, r, q);
    OtherFilesStay(h, env, c, r, q, u);
    PathsApart(env, r, u);
    var path := Where(env, u);
    assert IndexedAt(h, env, c, path);
    hide Step, I.Upsert, Tried, Refreshed, Trace, MarksOf, Cut, ChunkCount, I.Valid, I.OwnChunks, IndexedAt, Tidy;
    var p := Step(h, env, c, q);
    if p.going {
      OtherRowAfter(c.index, Refreshed(h, env, q, ContentOf(env, r)), path);
    }
    StaysIndexedAt(h, env, c, p.client, path);
  }

  /** A stored record keeps the index one of files below the root. */
  lemma RootedStays(t: I.Tables, f: FileRecord, root: Path)
    requires Rooted(t, root) && I.Upsert(t, f).Ok?
    requires f.fileId != [] && f.absolutePath == PathOf(root, f.relativePath)
    ensures var u := I.Upsert(t, f).value;
            && Rooted(u, root) && I.IdAt(u, f.absolutePath) == Some(f.fileId)
            && u.rows[f.fileId] == I.RowOf(f) && I.OwnChunks(u, f.fileId, f.chunks)
  {
    I.UpsertIsExact(t, f);
    assert I.Upsert(t, f).value.rows[f.fileId] == I.RowOf(f);
    hide I.Upsert, I.OwnChunks;
  }

  lemma NewlyIndexed(h: Hash, env: Environment, d: ClientState, r: FileRecord)
    requires Scanned(h, env.server.files, r, env.chunkSize) && |r.chunks| <= TWO_32 / 2
    requires FileAt(d.disk, Where(env, r)) == Some(ContentOf(env, r))
    requires I.IdAt(d.index, Where(env, r)) == Some(r.fileId) && d.index.rows[r.fileId].rootHash == r.fileId
    requires I.OwnChunks(d.index, r.fileId, r.chunks)
    ensures IndexedAt(h, env, d, Where(env, r))
  {
    hide Cut;
  }

  lemma AreScanned(h: Hash, env: Environment, r: FileRecord)
    requires StableServing(h, env) && r in env.server.records
    ensures Scanned(h, env.server.files, r, env.chunkSize) && |r.chunks| <= TWO_32 / 2 && r.fileId != []
  {
  }

  /** The row of a committed file is right, and so is that of a file that was not committed. */
  lemma OwnStaysIndexed(h: Hash, env: Environment, c: ClientState, r: FileRecord, q: ChunksRequest)
    requires Settled(h, env, c) && r.absolutePath in env.server.files && Tried(h, env, c, r, q)
    requires r in env.server.records
    ensures var d := Step(h, env, c, q).client;
            IndexedAt(h, env, d, Where(env, r)) && Rooted(d.index, env.root)
  {
    AreScanned(h, env, r);
    StepLeaves(h, env, c, r, q);
    assert IndexedAt(h, env, c, Where(env, r));
    hide Step, I.Upsert, Tried, Refreshed, Cut, I.Valid, I.OwnChunks, IndexedAt, SlicesApart, StableServing, Scanned,
      HasCommitted, PathOf, Commits, Trace, Rooted;
    var p := Step(h, env, c, q);
    if p.going {
      RootedStays(c.index, Refreshed(h, env, q, ContentOf(env, r)), env.root);
      NewlyIndexed(h, env, p.client, r);
    } else {
      StaysIndexedAt(h, env, c, p.client, Where(env, r));
    }
  }

  lemma IndexStays(h: Hash, env: Environment, c: ClientState, r: FileRecord, q: ChunksRequest)
    requires Settled(h, env, c) && r.absolutePath in env.server.files && Tried(h, env, c, r, q)
    requires r in env.server.records
    ensures Indexed(h, env, Step(h, env, c, q).client)
  {
    hide Step, Tried, Settled, Rooted, IndexedAt, PathOf;
    OwnStaysIndexed(h, env, c, r, q);
    forall u | u in env.server.records && u != r
      ensures IndexedAt(h, env, Step(h, env, c, q).client, Where(env, u))
    {
      OtherStaysIndexed(h, env, c, r, q, u);
    }
  }

  /** A file that becomes the server's version of it has no slices that collide. */
  lemma SlicesStayApart(h: Hash, env: Environment, s: Disk, d: Disk, r: FileRecord)
    requires StableServing(h, env) && SlicesApart(h, env, s) && r in env.server.records
    requires FileAt(d, Where(env, r)) in {FileAt(s, Where(env, r)), Some(ContentOf(env, r))}
    requires forall u | u in env.server.records && u != r :: FileAt(d, Where(env, u)) == FileAt(s, Where(env, u))
    ensures SlicesApart(h, env, d)
  {
    hide Tidy, Cut, SlicesDoNotCollide;
    forall a | a in env.server.records && Where(env, a) in d.files
      ensures SlicesDoNotCollide(h, a.chunks, d.files[Where(env, a)], ContentOf(env, a))
    {
      NoOtherSlices(h, a.chunks, ContentOf(env, a));
    }
  }

  lemma NoOtherSlices(h: Hash, chunks: seq<ChunkEntry>, content: Bytes)
    ensures SlicesDoNotCollide(h, chunks, content, content)
  {
  }

  /** What a session assumes holds again after each of its files, committed or not. */
  lemma SettledStays(h: Hash, env: Environment, c: ClientState, r: FileRecord, q: ChunksRequest)
    requires Settled(h, env, c) && r.absolutePath in env.server.files && Tried(h, env, c, r, q)
    requires r in env.server.records
    ensures Settled(h, env, Step(h, env, c, q).client)
  {
    hide Step, Tried, Indexed, SlicesApart, Cut, Refreshed, I.Upsert, StableServing;
    IndexStays(h, env, c, r, q);
    StepLeaves(h, env, c, r, q);
    var d := Step(h, env, c, q).client.disk;
    forall u | u in env.server.records && u != r
      ensures FileAt(d, Where(env, u)) == FileAt(c.disk, Where(env, u))
    {
      OtherStaysIndexed(h, env, c, r, q, u);
    }
    SlicesStayApart(h, env, c.disk, d, r);
  }
}
