/** Runs of the client with stable files: each session is a fresh scan and a comparison with the same server. */
module ClientSessions {
  import opened Base
  import opened Chunks
  import opened Attempt
  import opened CommitSafety
  import opened Diff
  import opened Delta
  import opened Server
  import opened WithoutLocal
  import opened ClientRun
  import opened ClientLaws
  import opened StableClient
  import opened ClientConvergence
  import I = FileIndex

  /** What RunClient does from a list of its index. */
  ghost function Session(h: Hash, env: Environment, c: ClientState, local: seq<FileRecord>): Progress {
    Steps(h, env, c, Compared(local, ManifestFiles(env.server.records)).requests)
  }

  /** A session with stable files, up to hash collisions. */
  ghost predicate StableSession(h: Hash, env: Environment, c: ClientState, local: seq<FileRecord>) {
    && Settled(h, env, c) && I.ListsFiles(c.index, local)
    && AllUnmistaken(h, env, c, Wanted(local, env.server.records))
  }

  lemma Readable(h: Hash, env: Environment)
    requires StableServing(h, env)
    ensures forall r | r in env.server.records :: r.absolutePath in env.server.files
  {
    forall r | r in env.server.records
      ensures r.absolutePath in env.server.files
    {
      AreScanned(h, env, r);
    }
  }

  lemma WantedAreRecords(h: Hash, env: Environment, local: seq<FileRecord>)
    requires StableServing(h, env)
    ensures Records(env, Wanted(local, env.server.records))
  {
    WantedAreDistinct(local, env.server.records);
    Readable(h, env);
  }

  /**
   A session with stable files is acknowledged if and only if every file it requests commits: a file that is gone, or whose
   row an earlier one takes, if its rank is 1 and nothing is left out behind its marked prefix; any other, if it is ready.
   */
  lemma SessionExactly(h: Hash, env: Environment, c: ClientState, local: seq<FileRecord>)
    requires StableSession(h, env, c, local)
    ensures Records(env, Wanted(local, env.server.records))
    ensures var p, w := Session(h, env, c, local), Wanted(local, env.server.records);
            (p.going <==> AllGo(h, env, c, w)) && SoFar(h, env, c, w, p)
  {
    hide Steps, AllGo, AllUnmistaken, Records, Since, LessWork, NoMoreWork, SlicesApart, StableServing, Loses;
    WantedAreRecords(h, env, local);
    SessionAsks(h, env, c, local);
    FirstFiles(h, env, c, Wanted(local, env.server.records));
  }

  /** A file that counts on a local chunk out of reach keeps the session from being acknowledged. */
  lemma LosingIsNotAcknowledged(h: Hash, env: Environment, c: ClientState, local: seq<FileRecord>)
    requires StableSession(h, env, c, local) && Loses(h, env, c, Wanted(local, env.server.records))
    ensures !Session(h, env, c, local).going
  {
    SessionExactly(h, env, c, local);
    hide Session, StableSession, SoFar, Gone, TaskOf, Goes;
    var w := Wanted(local, env.server.records);
    var i :| 0 <= i < |w| && Lost(h, env, c, w[..i], w[i]);
    LostDoesNotGo(h, env, c, w, i);
  }

  lemma LostDoesNotGo(h: Hash, env: Environment, c: ClientState, w: seq<FileRecord>, i: nat)
    requires Records(env, w) && i < |w| && Lost(h, env, c, w[..i], w[i])
    ensures !Goes(h, env, c, w[..i], w[i])
  {
    hide Gone, TaskOf;
  }

  /** Nothing is lost where no row is stale and no local file at one record's place has the hash of another record. */
  lemma ApartLosesNothing(h: Hash, env: Environment, c: ClientState, w: seq<FileRecord>)
    requires Indexed(h, env, c) && Records(env, w) && forall r | r in w :: !Stale(env, c, r)
    requires forall r, u | r in w && u in w && r != u && Where(env, u) in c.disk.files ::
               h(c.disk.files[Where(env, u)]) != r.fileId
    ensures !Loses(h, env, c, w)
  {
    hide I.OwnChunks, I.Valid, AsksBehind;
    forall i | 0 <= i < |w|
      ensures !TakenBy(env, c.index, w[..i], w[i])
    {
      assert w[i] in w && IndexedAt(h, env, c, Where(env, w[i]));
      forall u | u in w[..i]
        ensures I.IdAt(c.index, Where(env, w[i])) != Some(u.fileId)
      {
        var j :| 0 <= j < i && w[..i][j] == u;
        assert w[j] == u && u in w;
      }
    }
  }

  // ---------- What an acknowledgement means ----------

  /** The file of a record is at its place, by its hash. */
  ghost predicate Placed(h: Hash, env: Environment, s: Disk, r: FileRecord) {
    Where(env, r) in s.files && h(s.files[Where(env, r)]) == r.rootHash
  }

  ghost predicate AllInPlace(h: Hash, env: Environment, s: Disk) {
    forall r | r in env.server.records :: Placed(h, env, s, r)
  }

  /** Each request is for a wanted record. */
  lemma RequestIsWanted(env: Environment, local: seq<FileRecord>, k: nat) returns (u: FileRecord)
    requires k < |Compared(local, ManifestFiles(env.server.records)).requests|
    ensures |Compared(local, ManifestFiles(env.server.records)).requests| == |Wanted(local, env.server.records)|
    ensures u == Wanted(local, env.server.records)[k]
    ensures For(Compared(local, ManifestFiles(env.server.records)).requests[k], u)
  {
    SelectsWanted(local, env.server.records);
    u := Wanted(local, env.server.records)[k];
  }

  lemma RequestsApart(env: Environment, local: seq<FileRecord>)
    requires Tidy(env) && DistinctIds(env.server.records)
    ensures AllApart(env.root, Compared(local, ManifestFiles(env.server.records)).requests)
  {
    var requests := Compared(local, ManifestFiles(env.server.records)).requests;
    var w := Wanted(local, env.server.records);
    WantedAreDistinct(local, env.server.records);
    hide Compared, Wanted, Tidy;
    forall i, j | 0 <= i < j < |requests|
      ensures FilesApart(env.root, requests[i], requests[j])
    {
      var a := RequestIsWanted(env, local, i);
      var b := RequestIsWanted(env, local, j);
      assert w[i] in w && w[j] in w;
      PathsApart(env, a, b);
    }
  }

  /** A file found identical is not requested, and no session changes it. */
  lemma IdenticalStays(h: Hash, env: Environment, c: ClientState, local: seq<FileRecord>, r: FileRecord)
    requires Tidy(env) && r in env.server.records && Identical(local, ManifestOf(r))
    ensures FileAt(Session(h, env, c, local).client.disk, Where(env, r)) == FileAt(c.disk, Where(env, r))
  {
    var requests := Compared(local, ManifestFiles(env.server.records)).requests;
    hide Compared, Steps, Identical, InPlace, Tidy;
    forall q | q in requests
      ensures Where(env, r) != PathOf(env.root, q.relativePath)
      ensures Where(env, r) != TempOf(PathOf(env.root, q.relativePath))
    {
      var k :| 0 <= k < |requests| && requests[k] == q;
      var u := RequestIsWanted(env, local, k);
      assert u in Wanted(local, env.server.records);
      PathsApart(env, r, u);
    }
    SessionIsSafe(h, env, c, requests, Where(env, r));
    var d := Session(h, env, c, local).client.disk;
    assert KeptOrSynced(h, env, c.disk, d, requests, Where(env, r));
    forall q | q in requests
      ensures !InPlace(h, env, d, q, Where(env, r))
    {
      PlacedThere(h, env, d, q, Where(env, r));
    }
  }

  lemma PlacedThere(h: Hash, env: Environment, s: Disk, q: ChunksRequest, x: Path)
    ensures InPlace(h, env, s, q, x) ==> x == PathOf(env.root, q.relativePath)
  {
  }

  lemma WantedIsRequested(env: Environment, local: seq<FileRecord>, r: FileRecord) returns (q: ChunksRequest)
    requires r in Wanted(local, env.server.records)
    ensures q in Compared(local, ManifestFiles(env.server.records)).requests && For(q, r)
  {
    var requests, w := Compared(local, ManifestFiles(env.server.records)).requests, Wanted(local, env.server.records);
    SelectsWanted(local, env.server.records);
    var k :| 0 <= k < |w| && w[k] == r;
    q := requests[k];
  }

  lemma InPlaceFor(h: Hash, env: Environment, s: Disk, q: ChunksRequest, r: FileRecord)
    requires For(q, r) && InPlace(h, env, s, q, PathOf(env.root, q.relativePath))
    requires FindRemoteFile(ManifestFiles(env.server.records), r.fileId, r.relativePath) == Some(ManifestOf(r))
    ensures Placed(h, env, s, r)
  {
    hide FindRemoteFile, ManifestFiles;
  }

  /** An acknowledged session places what it requested. */
  lemma WantedIsPlaced(h: Hash, env: Environment, c: ClientState, local: seq<FileRecord>, r: FileRecord)
    requires Tidy(env) && DistinctIds(env.server.records) && r in Wanted(local, env.server.records)
    requires Session(h, env, c, local).going
    ensures Placed(h, env, Session(h, env, c, local).client.disk, r)
  {
    hide Steps, Compared, Tidy, FindRemoteFile, AllApart, DistinctIds, Identical, InPlace, Placed, ManifestFiles;
    var q := WantedIsRequested(env, local, r);
    RequestsApart(env, local);
    FindsOnce(env, r);
    AcknowledgedMeansInPlace(h, env, c, Compared(local, ManifestFiles(env.server.records)).requests);
    InPlaceFor(h, env, Session(h, env, c, local).client.disk, q, r);
  }

  /**
   An acknowledged session leaves every file of the server in its place if and only if the files it found identical were
   in theirs: whatever server, link and index, an index row is believed and not checked.
   */
  lemma SyncedExactly(h: Hash, env: Environment, c: ClientState, local: seq<FileRecord>)
    requires Tidy(env) && DistinctIds(env.server.records) && Session(h, env, c, local).going
    ensures AllInPlace(h, env, Session(h, env, c, local).client.disk)
       <==> forall r | r in env.server.records && Identical(local, ManifestOf(r)) :: Placed(h, env, c.disk, r)
  {
    hide Session, Tidy, DistinctIds, Identical;
    var d := Session(h, env, c, local).client.disk;
    forall r | r in env.server.records
      ensures if Identical(local, ManifestOf(r)) then Placed(h, env, d, r) == Placed(h, env, c.disk, r)
              else Placed(h, env, d, r)
    {
      if Identical(local, ManifestOf(r)) {
        IdenticalStays(h, env, c, local, r);
      } else {
        WantedIsPlaced(h, env, c, local, r);
      }
    }
  }

  /** With an index as a scan leaves it: if and only if no file found identical is gone. */
  lemma AcknowledgedIsSynced(h: Hash, env: Environment, c: ClientState, local: seq<FileRecord>)
    requires Tidy(env) && DistinctIds(env.server.records) && Indexed(h, env, c) && I.ListsFiles(c.index, local)
    requires Session(h, env, c, local).going
    ensures AllInPlace(h, env, Session(h, env, c, local).client.disk)
       <==> forall r | r in env.server.records && Identical(local, ManifestOf(r)) :: Where(env, r) in c.disk.files
  {
    SyncedExactly(h, env, c, local);
    hide Session, Identical, I.ListsFiles, Indexed;
    forall r | r in env.server.records && Identical(local, ManifestOf(r))
      ensures Placed(h, env, c.disk, r) <==> Where(env, r) in c.disk.files
    {
      ListedIsLocal(h, env, c, local, r);
    }
  }

  /**
   No scan removes a row: a file found identical by its row is in place after the session if and only if it was before,
   deleted or changed as it may be.
   */
  lemma StaleRowHidesFile(h: Hash, env: Environment, c: ClientState, local: seq<FileRecord>, r: FileRecord)
    requires Tidy(env) && r in env.server.records && Identical(local, ManifestOf(r))
    ensures Placed(h, env, Session(h, env, c, local).client.disk, r) <==> Placed(h, env, c.disk, r)
  {
    IdenticalStays(h, env, c, local, r);
    hide Session;
  }

  // ---------- Several sessions ----------

  /** The attempts, beyond one each, that some records can still need. */
  function TotalWork(env: Environment, s: Disk, w: seq<FileRecord>): (n: nat)
    requires forall r | r in w :: r.absolutePath in env.server.files
    ensures n <= 2 * |w|
  {
    if w == [] then 0
    else
      assert forall r | r in w[..|w| - 1] :: r in w;
      TotalWork(env, s, w[..|w| - 1]) + Work(env, s, w[|w| - 1])
  }

  lemma {:induction false} TotalDrops(env: Environment, s: Disk, t: Disk, w: seq<FileRecord>)
    requires forall r | r in w :: r.absolutePath in env.server.files && Work(env, t, r) <= Work(env, s, r)
    ensures TotalWork(env, t, w) <= TotalWork(env, s, w)
    ensures (exists r :: r in w && Work(env, t, r) < Work(env, s, r)) ==> TotalWork(env, t, w) < TotalWork(env, s, w)
  {
    hide Work;
    if w != [] {
      var front, last := w[..|w| - 1], w[|w| - 1];
      assert w == front + [last];
      TotalDrops(env, s, t, front);
    }
  }

  /** The client after the scan that opens a run. */
  ghost function Scan(c: ClientState, scan: seq<FileRecord>): ClientState {
    c.(index := I.AfterAll(c.index, scan))
  }

  /** A scan of the client's root: records of files below it, and every indexed file that is there is met. */
  ghost predicate FullScan(h: Hash, env: Environment, c: ClientState, scan: seq<FileRecord>) {
    && ScanOf(h, c.disk.files, scan, env.chunkSize)
    && (forall f | f in scan :: f.absolutePath == PathOf(env.root, f.relativePath))
    && forall id | id in c.index.rows && c.index.rows[id].absolutePath in c.disk.files ::
         exists f :: f in scan && f.absolutePath == c.index.rows[id].absolutePath
  }

  lemma ScanKeepsRooted(h: Hash, env: Environment, c: ClientState, scan: seq<FileRecord>)
    requires FullScan(h, env, c, scan) && Rooted(c.index, env.root)
    ensures Rooted(Scan(c, scan).index, env.root) && I.FromScan(c.index, Scan(c, scan).index, scan)
  {
    ScanIsRegular(h, c.disk.files, scan, env.chunkSize);
    I.ScanReplaces(c.index, scan);
    hide I.AfterAll, I.Valid, I.OwnChunks, Cut, ChunkCount, ScanOf, I.Regular, I.InOrder;
    var t := Scan(c, scan).index;
    forall id | id in t.rows
      ensures t.rows[id].absolutePath == PathOf(env.root, t.rows[id].relativePath)
    {
      if f :| f in scan && f.fileId == id && I.Holds(t, f) {
      } else {
        assert id in c.index.rows && t.rows[id] == c.index.rows[id];
      }
    }
  }

  /** After a full scan every row is right, or stale, whatever order the scan took. */
  lemma ScanGivesIndexed(h: Hash, env: Environment, c: ClientState, scan: seq<FileRecord>)
    requires FullScan(h, env, c, scan) && Rooted(c.index, env.root)
    ensures Indexed(h, env, Scan(c, scan))
  {
    ScanKeepsRooted(h, env, c, scan);
    hide I.AfterAll, I.Valid, I.OwnChunks, Cut, ChunkCount, Rooted;
    var t := Scan(c, scan).index;
    forall r | r in env.server.records
      ensures IndexedAt(h, env, Scan(c, scan), Where(env, r))
    {
      var id := I.IdAt(t, Where(env, r));
      if id.Some? && Where(env, r) in c.disk.files {
        var f :| f in scan && f.fileId == id.value && I.Holds(t, f);
      }
    }
  }

  /** d is c, up to files, marks and rows that no record of the server has to do with. */
  ghost predicate LeftAlone(env: Environment, c: ClientState, d: ClientState) {
    d.index == c.index && forall r | r in env.server.records :: SameFiles(env, c.disk, d.disk, r)
  }

  /** A client run, from c to d: a full scan, and a session from what it found; any other file may change beside it. */
  ghost predicate OneRun(
    h: Hash, env: Environment, c: ClientState, scan: seq<FileRecord>, local: seq<FileRecord>, d: ClientState) {
    && FullScan(h, env, c, scan) && I.ListsFiles(Scan(c, scan).index, local)
    && AllUnmistaken(h, env, Scan(c, scan), Wanted(local, env.server.records))
    && LeftAlone(env, Session(h, env, Scan(c, scan), local).client, d)
  }

  /** Client runs one after another. */
  ghost predicate Runs(
    h: Hash, env: Environment, cs: seq<ClientState>, scans: seq<seq<FileRecord>>, locals: seq<seq<FileRecord>>) {
    && |cs| == |scans| + 1 && |locals| == |scans|
    && forall k | 0 <= k < |scans| :: OneRun(h, env, cs[k], scans[k], locals[k], cs[k + 1])
  }

  /** Run k ends in the acknowledgement. */
  ghost predicate Acknowledged(
    h: Hash, env: Environment, cs: seq<ClientState>, scans: seq<seq<FileRecord>>, locals: seq<seq<FileRecord>>, k: nat)
    requires |cs| == |scans| + 1 && |locals| == |scans| && k < |scans|
  {
    Session(h, env, Scan(cs[k], scans[k]), locals[k]).going
  }

  /** What a run needs of the state before it. */
  ghost predicate Sound(h: Hash, env: Environment, c: ClientState) {
    StableServing(h, env) && Rooted(c.index, env.root)
    && (forall r | r in env.server.records :: r.absolutePath in env.server.files) && SlicesApart(h, env, c.disk)
  }

  lemma StaysSound(h: Hash, env: Environment, c: ClientState, d: ClientState)
    requires Sound(h, env, c) && LeftAlone(env, c, d)
    ensures Sound(h, env, d) && TotalWork(env, d.disk, env.server.records) <= TotalWork(env, c.disk, env.server.records)
    ensures AllInPlace(h, env, c.disk) <==> AllInPlace(h, env, d.disk)
  {
    hide StableServing, SlicesDoNotCollide, Work, TotalWork, MarksOf;
    forall r | r in env.server.records
      ensures FileAt(d.disk, Where(env, r)) == FileAt(c.disk, Where(env, r))
      ensures Work(env, d.disk, r) <= Work(env, c.disk, r)
    {
      SameWork(env, c.disk, d.disk, r);
    }
    TotalDrops(env, c.disk, d.disk, env.server.records);
  }

  /** From c to d every file of the server came to its place, if and only if none was gone that was found identical. */
  ghost predicate SyncedFrom(h: Hash, env: Environment, c: ClientState, local: seq<FileRecord>, d: ClientState) {
    AllInPlace(h, env, d.disk)
    <==> forall r | r in env.server.records && Identical(local, ManifestOf(r)) :: Where(env, r) in c.disk.files
  }

  /** In run k some file counts on a local chunk, behind its marked prefix, that is out of reach. */
  ghost predicate RunLoses(
    h: Hash, env: Environment, cs: seq<ClientState>, scans: seq<seq<FileRecord>>, locals: seq<seq<FileRecord>>, k: nat)
    requires |cs| == |scans| + 1 && |locals| == |scans| && k < |scans|
  {
    Loses(h, env, Scan(cs[k], scans[k]), Wanted(locals[k], env.server.records))
  }

  /** Another run can follow; unless this one is acknowledged, or counts on a chunk out of reach, it leaves less work. */
  lemma RunDrops(
    h: Hash, env: Environment, c: ClientState, scan: seq<FileRecord>, local: seq<FileRecord>, d: ClientState)
    requires Sound(h, env, c) && OneRun(h, env, c, scan, local, d)
    ensures StableSession(h, env, Scan(c, scan), local) && Sound(h, env, d)
    ensures if Session(h, env, Scan(c, scan), local).going then SyncedFrom(h, env, c, local, d)
            else TotalWork(env, d.disk, env.server.records) < TotalWork(env, c.disk, env.server.records)
                 || Loses(h, env, Scan(c, scan), Wanted(local, env.server.records))
  {
    assert DistinctIds(env.server.records) && Tidy(env);
    hide I.ListsFiles, AllUnmistaken, AllGo, StableServing, SlicesApart, Work, Session, FullScan, Records,
      LeftAlone, AllInPlace, DistinctIds, Tidy, Loses;
    ScanGivesIndexed(h, env, c, scan);
    SessionExactly(h, env, Scan(c, scan), local);
    var p := Session(h, env, Scan(c, scan), local);
    if p.going {
      AcknowledgedIsSynced(h, env, Scan(c, scan), local);
    } else if !Loses(h, env, Scan(c, scan), Wanted(local, env.server.records)) {
      TotalDrops(env, c.disk, p.client.disk, env.server.records);
    }
    StaysSound(h, env, p.client, d);
  }

  /** Every run of the list can start, and one that counts on a chunk out of reach is not acknowledged. */
  lemma {:induction false} SoundThroughout(
    h: Hash, env: Environment, cs: seq<ClientState>, scans: seq<seq<FileRecord>>, locals: seq<seq<FileRecord>>, k: nat)
    requires Runs(h, env, cs, scans, locals) && k <= |scans| && Sound(h, env, cs[0])
    ensures Sound(h, env, cs[k])
    ensures k < |scans| ==> StableSession(h, env, Scan(cs[k], scans[k]), locals[k])
    ensures k < |scans| && RunLoses(h, env, cs, scans, locals, k) ==> !Acknowledged(h, env, cs, scans, locals, k)
  {
    hide Session, I.ListsFiles, AllUnmistaken, Sound, FullScan, StableSession, LeftAlone, AllInPlace, Loses;
    if k > 0 {
      SoundThroughout(h, env, cs, scans, locals, k - 1);
      RunDrops(h, env, cs[k - 1], scans[k - 1], locals[k - 1], cs[k]);
    }
    if k < |scans| {
      RunDrops(h, env, cs[k], scans[k], locals[k], cs[k + 1]);
      if RunLoses(h, env, cs, scans, locals, k) {
        LosingIsNotAcknowledged(h, env, Scan(cs[k], scans[k]), locals[k]);
      }
    }
  }

  ghost predicate Ends(
    h: Hash, env: Environment, cs: seq<ClientState>, scans: seq<seq<FileRecord>>, locals: seq<seq<FileRecord>>, k: nat)
    requires |cs| == |scans| + 1 && |locals| == |scans| && k < |scans|
  {
    Acknowledged(h, env, cs, scans, locals, k) || RunLoses(h, env, cs, scans, locals, k)
  }

  /** Other runs use up the work. */
  lemma {:induction false} WorkRunsOut(
    h: Hash, env: Environment, cs: seq<ClientState>, scans: seq<seq<FileRecord>>, locals: seq<seq<FileRecord>>, k: nat)
    requires Runs(h, env, cs, scans, locals) && k <= |scans| && Sound(h, env, cs[0])
    requires forall i | 0 <= i < k :: !Ends(h, env, cs, scans, locals, i)
    ensures Sound(h, env, cs[k])
    ensures TotalWork(env, cs[k].disk, env.server.records) + k <= TotalWork(env, cs[0].disk, env.server.records)
  {
    hide Session, I.ListsFiles, AllUnmistaken, StableServing, SlicesApart, Work, FullScan, StableSession, LeftAlone,
      AllInPlace, Loses;
    if k > 0 {
      WorkRunsOut(h, env, cs, scans, locals, k - 1);
      RunDrops(h, env, cs[k - 1], scans[k - 1], locals[k - 1], cs[k]);
      assert !Ends(h, env, cs, scans, locals, k - 1);
    }
  }

  lemma {:induction false} FirstEnd(
    h: Hash, env: Environment, cs: seq<ClientState>, scans: seq<seq<FileRecord>>, locals: seq<seq<FileRecord>>, i: nat)
    returns (k: nat)
    requires Runs(h, env, cs, scans, locals) && i <= |scans| == 2 * |env.server.records| + 1 && Sound(h, env, cs[0])
    requires forall j | 0 <= j < i :: !Ends(h, env, cs, scans, locals, j)
    ensures k < |scans| && Ends(h, env, cs, scans, locals, k)
    ensures forall j | 0 <= j < k :: !Ends(h, env, cs, scans, locals, j)
    decreases |scans| - i
  {
    hide Session, I.ListsFiles, AllUnmistaken, StableServing, SlicesApart, Work, FullScan, Ends, LeftAlone;
    WorkRunsOut(h, env, cs, scans, locals, i);
    if Ends(h, env, cs, scans, locals, i) {
      k := i;
    } else {
      k := FirstEnd(h, env, cs, scans, locals, i + 1);
    }
  }

  /**
   Convergence of the whole client, from whatever marks, .part files and rows earlier runs left. Of any 2n + 1 runs in a
   row against a server of n files one is acknowledged, with every file of the server in its place that was not found
   identical and gone, unless one of them counts on a chunk out of reach; and such a run is never acknowledged.
   */
  lemma ClientConverges(
    h: Hash, env: Environment, cs: seq<ClientState>, scans: seq<seq<FileRecord>>, locals: seq<seq<FileRecord>>)
    requires Runs(h, env, cs, scans, locals) && |scans| == 2 * |env.server.records| + 1 && Sound(h, env, cs[0])
    ensures exists k ::
              && 0 <= k <= TotalWork(env, cs[0].disk, env.server.records) < |scans|
              && (|| (Acknowledged(h, env, cs, scans, locals, k) && SyncedFrom(h, env, cs[k], locals[k], cs[k + 1]))
                  || RunLoses(h, env, cs, scans, locals, k))
    ensures forall k | 0 <= k < |scans| && RunLoses(h, env, cs, scans, locals, k) ::
              !Acknowledged(h, env, cs, scans, locals, k)
    ensures forall k | 0 <= k <= |scans| :: Sound(h, env, cs[k])
  {
    forall k | 0 <= k <= |scans|
      ensures Sound(h, env, cs[k])
      ensures k < |scans| && RunLoses(h, env, cs, scans, locals, k) ==> !Acknowledged(h, env, cs, scans, locals, k)
    {
      SoundThroughout(h, env, cs, scans, locals, k);
    }
    hide I.ListsFiles, AllUnmistaken, StableServing, SlicesApart, Work, FullScan, AllInPlace, StableSession, Session,
      LeftAlone, Loses;
    var k := FirstEnd(h, env, cs, scans, locals, 0);
    WorkRunsOut(h, env, cs, scans, locals, k);
    RunDrops(h, env, cs[k], scans[k], locals[k], cs[k + 1]);
    assert Acknowledged(h, env, cs, scans, locals, k) ==> SyncedFrom(h, env, cs[k], locals[k], cs[k + 1]);
  }
}
