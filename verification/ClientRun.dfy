/** RunClient as a function: what one session does to the client's disk and file index. */
module ClientRun {
  import opened Base
  import opened Chunks
  import opened Attempt
  import opened Diff
  import opened Server
  import I = FileIndex

  /**
   What a session is given. faults, mtime: what the file system answers while a file is written and then scanned.
   storeFails: whether the storage backend throws on the committed file.
   */
  datatype Environment = Environment(
    server: State, root: Path, chunkSize: nat,
    faults: ChunksRequest -> Faults, mtime: ChunksRequest -> nat, storeFails: ChunksRequest -> bool)

  /** What a session changes: files and task tables, and the file index. */
  datatype ClientState = ClientState(disk: Disk, index: I.Tables)

  const SLASH: byte := 47
  const BAR: byte := 124

  /** local_root / relative_path. */
  function PathOf(root: Path, relative: Path): Path { root + [SLASH] + relative }

  /** MakeTaskId. */
  function TaskIdOf(q: ChunksRequest): TaskId { q.fileId + [BAR] + q.relativePath }

  /** Where a session keeps a file, its .part and its task: /data and a/b give /data/a/b, /data/a/b.part and id|a/b. */
  lemma NameSamples(q: ChunksRequest)
    requires q.fileId == Text("id") && q.relativePath == Text("a/b")
    ensures PathOf(Text("/data"), q.relativePath) == Text("/data/a/b")
    ensures TempOf(PathOf(Text("/data"), q.relativePath)) == Text("/data/a/b.part")
    ensures TaskIdOf(q) == Text("id|a/b")
  {
  }

  /** The chunks of the indexed file at a path, if there is one. */
  ghost function LocalAt(t: I.Tables, path: Path): (r: Option<seq<ChunkEntry>>)
    ensures r.Some? ==> exists f :: I.Fetches(t, I.IdAt(t, path), Some(f)) && f.chunks == r.value
    ensures r.None? ==> forall f :: !I.Fetches(t, I.IdAt(t, path), Some(f))
  {
    if f :| I.Fetches(t, I.IdAt(t, path), Some(f)) then Some(f.chunks) else None
  }

  lemma FetchedIsLocal(t: I.Tables, path: Path, r: Option<FileRecord>)
    requires I.Fetches(t, I.IdAt(t, path), r)
    ensures LocalAt(t, path) == if r.Some? then Some(r.value.chunks) else None
  {
    if r.Some? {
      assert I.Fetches(t, I.IdAt(t, path), Some(r.value));
      var f :| I.Fetches(t, I.IdAt(t, path), Some(f)) && Some(f.chunks) == LocalAt(t, path);
      var id := I.IdAt(t, path).value;
      assert I.Fetches(t, Some(id), Some(f));
      assert Some(f).value == f;
      assert I.Lists(t, id, f.chunks);
      I.ListingIsUnique(t, id, f.chunks, r.value.chunks);
    }
  }

  /** The attempt for a request, against this server. */
  ghost function JobOf(h: Hash, env: Environment, t: I.Tables, f: ManifestFile, q: ChunksRequest): Job {
    var path := PathOf(env.root, q.relativePath);
    Job(path, TaskIdOf(q), f.chunks, f.summary.rootHash, q.missing, LocalAt(t, path),
        ServeFile(h, env.server, f.summary), env.faults(q))
  }

  /** BuildFileRecord of the file just committed. */
  function Refreshed(h: Hash, env: Environment, q: ChunksRequest, content: Bytes): FileRecord {
    FileRecord(h(content), q.relativePath, PathOf(env.root, q.relativePath), |content|, env.mtime(q), 0, h(content),
               Cut(h, content, env.chunkSize))
  }

  /** states: the persistent states passed through. going: no exception so far. */
  datatype Progress = Progress(states: seq<Disk>, client: ClientState, going: bool)

  /** One turn of RunClient's loop: an attempt and, once it committed, the new index row and the stored object. */
  ghost function Step(h: Hash, env: Environment, c: ClientState, q: ChunksRequest): Progress {
    var f := FindRemoteFile(ManifestFiles(env.server.records), q.fileId, q.relativePath);
    if f.None? then Progress([], c, false)
    else
      var job := JobOf(h, env, c.index, f.value, q);
      var e := After(h, c.disk, job);
      if !Commits(h, c.disk, job) then Progress(Trace(h, c.disk, job), c.(disk := e), false)
      else
        RowAfter(h, c.disk, job);
        var u := I.Upsert(c.index, Refreshed(h, env, q, e.files[job.path]));
        Progress(Trace(h, c.disk, job), ClientState(e, if u.Ok? then u.value else c.index),
                 u.Ok? && !env.storeFails(q))
  }

  /** The whole loop: the first file that does not commit ends it. */
  ghost function Steps(h: Hash, env: Environment, c: ClientState, requests: seq<ChunksRequest>): Progress {
    if requests == [] then Progress([], c, true)
    else
      var before := Steps(h, env, c, requests[..|requests| - 1]);
      if !before.going then before
      else
        var next := Step(h, env, before.client, requests[|requests| - 1]);
        next.(states := before.states + next.states)
  }

  /** Once the loop has stopped, the files behind are not touched. */
  lemma {:induction false} StopsForGood(h: Hash, env: Environment, c: ClientState, requests: seq<ChunksRequest>, k: nat)
    requires k <= |requests| && !Steps(h, env, c, requests[..k]).going
    ensures Steps(h, env, c, requests) == Steps(h, env, c, requests[..k])
  {
    hide Step;
    if k < |requests| {
      assert requests[..|requests| - 1][..k] == requests[..k];
      StopsForGood(h, env, c, requests[..|requests| - 1], k);
    } else {
      assert requests[..k] == requests;
    }
  }

  lemma NoSteps(h: Hash, env: Environment, c: ClientState)
    ensures Steps(h, env, c, []) == Progress([], c, true)
  {
  }

  lemma NextStep(h: Hash, env: Environment, c: ClientState, requests: seq<ChunksRequest>, k: nat)
    requires k < |requests| && Steps(h, env, c, requests[..k]).going
    ensures var before := Steps(h, env, c, requests[..k]);
            var next := Step(h, env, before.client, requests[k]);
            Steps(h, env, c, requests[..k + 1]) == next.(states := before.states + next.states)
  {
    assert requests[..k + 1][..k] == requests[..k];
  }
}
