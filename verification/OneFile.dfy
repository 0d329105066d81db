/** Runs of a new client against a server of one file: the hypotheses of the laws about runs can be met. */
module OneFile {
  import opened Base
  import opened Chunks
  import opened Attempt
  import opened CommitSafety
  import opened ResumeInvariant
  import opened Convergence
  import opened Diff
  import opened Delta
  import opened Server
  import opened WithoutLocal
  import opened ClientRun
  import opened ClientLaws
  import opened StableClient
  import opened ClientConvergence
  import opened ClientSessions
  import I = FileIndex

  const AT: Path := PathOf([], [])

  /** The one record, on both sides. */
  function Only(h: Hash, content: Bytes, chunkSize: nat): FileRecord {
    FileRecord(h(content), [], AT, |content|, 0, 0, h(content), Cut(h, content, chunkSize))
  }

  function Place(h: Hash, content: Bytes, chunkSize: nat): Environment {
    Environment(
      State([Only(h, content, chunkSize)], map[AT := content]), [], chunkSize, q => NO_FAULTS, q => 0, q => false)
  }

  function NewClient(): ClientState { ClientState(Disk(map[], map[], map[]), I.EMPTY) }

  /** Nothing else has the content's hash, as with the identity for a hash. */
  ghost predicate Alone(h: Hash, content: Bytes, chunkSize: nat) {
    && chunkSize > 0 && ChunkCount(|content|, chunkSize) <= TWO_32 / 2 && h(content) != []
    && forall b :: h(b) == h(content) ==> b == content
  }

  lemma ServesOne(h: Hash, content: Bytes, chunkSize: nat)
    requires Alone(h, content, chunkSize)
    ensures StableServing(h, Place(h, content, chunkSize))
    ensures Scanned(h, map[AT := content], Only(h, content, chunkSize), chunkSize)
    ensures I.Regular(Only(h, content, chunkSize)) && I.InOrder(Only(h, content, chunkSize).chunks)
  {
    I.CutIsInOrder(h, content, chunkSize);
    hide Cut, ChunkCount;
    assert Scanned(h, Place(h, content, chunkSize).server.files, Only(h, content, chunkSize), chunkSize);
  }

  lemma NoneMistaken(h: Hash, content: Bytes, chunkSize: nat, c: ClientState, w: seq<FileRecord>)
    requires Alone(h, content, chunkSize) && forall r | r in w :: r == Only(h, content, chunkSize)
    ensures AllUnmistaken(h, Place(h, content, chunkSize), c, w)
  {
    hide Cut, ChunkCount, Steps, Trace, PartContents, RequestOf;
    assert forall i | 0 <= i < |w| :: w[i] in w;
  }

  /** The file is in place, and no row is at another path. */
  ghost predicate Synced(c: ClientState, content: Bytes) {
    && FileAt(c.disk, AT) == Some(content) && Rooted(c.index, [])
    && forall id | id in c.index.rows :: c.index.rows[id].absolutePath == AT
  }

  lemma NewIsSettled(h: Hash, content: Bytes, chunkSize: nat)
    requires Alone(h, content, chunkSize)
    ensures var env := Place(h, content, chunkSize);
            && FullScan(h, env, NewClient(), []) && I.ListsFiles(I.EMPTY, []) && Scan(NewClient(), []) == NewClient()
            && Settled(h, env, NewClient()) && Sound(h, env, NewClient())
  {
    ServesOne(h, content, chunkSize);
    hide Cut, StableServing, ChunkCount, Scanned, Alone;
  }

  lemma FirstAsks(h: Hash, content: Bytes, chunkSize: nat)
    requires Alone(h, content, chunkSize)
    ensures var env, r := Place(h, content, chunkSize), Only(h, content, chunkSize);
            && Wanted([], [r]) == [r]
            && Compared([], ManifestFiles(env.server.records)).requests == [RequestOf(env, I.EMPTY, r)]
  {
    var env, r := Place(h, content, chunkSize), Only(h, content, chunkSize);
    NewIsSettled(h, content, chunkSize);
    hide Cut, StableServing, SlicesApart, Alone, I.ListsFiles, Compared, ManifestFiles, Indexed, RequestOf, FullScan;
    assert [r][..0] == [];
    SessionAsks(h, env, NewClient(), []);
    assert Asking(env, I.EMPTY, [r]) == [RequestOf(env, I.EMPTY, r)];
  }

  lemma FirstStep(h: Hash, content: Bytes, chunkSize: nat)
    requires Alone(h, content, chunkSize)
    ensures var env := Place(h, content, chunkSize);
            var p := Step(h, env, NewClient(), RequestOf(env, I.EMPTY, Only(h, content, chunkSize)));
            p.going && Synced(p.client, content)
  {
    var env, r := Place(h, content, chunkSize), Only(h, content, chunkSize);
    NewIsSettled(h, content, chunkSize);
    hide Cut, StableServing, Settled, Indexed, SlicesApart, Alone, I.ListsFiles, FullScan, Tried, Commits, Step, LocalAt,
      MissingOf, Refreshed, I.Upsert, Sound, I.OwnChunks, Scan;
    NothingStale(env, r);
    UnmarkedIsTried(h, env, NewClient(), r);
    var q := RequestOf(env, I.EMPTY, r);
    StepLeaves(h, env, NewClient(), r, q);
    hide HasCommitted;
    StoredAlone(Refreshed(h, env, q, content));
  }

  lemma NothingStale(env: Environment, r: FileRecord)
    ensures !Stale(env, NewClient(), r)
  {
  }

  /** The first row. */
  lemma StoredAlone(f: FileRecord)
    requires I.Upsert(I.EMPTY, f).Ok? && f.fileId != [] && f.absolutePath == PathOf([], f.relativePath)
    ensures var u := I.Upsert(I.EMPTY, f).value;
            Rooted(u, []) && forall id | id in u.rows :: u.rows[id].absolutePath == f.absolutePath
  {
    RootedStays(I.EMPTY, f, []);
    I.UpsertReplaces(I.EMPTY, f);
    hide I.Upsert, I.OwnChunks, Rooted;
  }

  /** The first run asks for the file and puts it in place. */
  lemma FirstRun(h: Hash, content: Bytes, chunkSize: nat)
    requires Alone(h, content, chunkSize)
    ensures var p := Session(h, Place(h, content, chunkSize), NewClient(), []);
            p.going && Synced(p.client, content)
  {
    var env := Place(h, content, chunkSize);
    FirstAsks(h, content, chunkSize);
    FirstStep(h, content, chunkSize);
    hide Place, Only, Alone, Step, Steps, Compared, Synced, RequestOf;
    OneStep(h, env, NewClient(), RequestOf(env, I.EMPTY, Only(h, content, chunkSize)));
  }

  lemma OneStep(h: Hash, env: Environment, c: ClientState, q: ChunksRequest)
    ensures Steps(h, env, c, [q]).client == Step(h, env, c, q).client
    ensures Steps(h, env, c, [q]).going == Step(h, env, c, q).going
  {
    hide Step;
    NoSteps(h, env, c);
    NextStep(h, env, c, [q], 0);
    assert [q][..1] == [q] && [q][..0] == [];
  }

  lemma LaterScanIsFull(h: Hash, content: Bytes, chunkSize: nat, c: ClientState)
    requires Alone(h, content, chunkSize) && Synced(c, content)
    ensures FullScan(h, Place(h, content, chunkSize), c, [Only(h, content, chunkSize)])
  {
    var r := Only(h, content, chunkSize);
    ServesOne(h, content, chunkSize);
    assert Scanned(h, c.disk.files, r, chunkSize);
    hide Cut, StableServing, Scanned, I.Valid, I.Regular, I.InOrder;
    assert r in [r];
  }

  /** A later scan finds the file where it is. */
  lemma LaterScan(h: Hash, content: Bytes, chunkSize: nat, c: ClientState)
    requires Alone(h, content, chunkSize) && Synced(c, content)
    ensures var r := Only(h, content, chunkSize);
            I.ListsFiles(Scan(c, [r]).index, [r]) && Synced(Scan(c, [r]), content)
  {
    var r := Only(h, content, chunkSize);
    ServesOne(h, content, chunkSize);
    assert r.fileId != [] && r.absolutePath == AT;
    hide Cut, StableServing, Scanned, I.AfterAll, I.Valid, I.Regular, I.InOrder, I.HoldsOnly, I.ListsFiles, I.Fetches,
      Alone, Only;
    assert [r] == [] + [r] && r in [r];
    I.OneContent(c.index, [], r);
    I.RunsStayValid(c.index, [r]);
    I.HoldsOnlyLists(Scan(c, [r]).index, r);
    OneRowAt(Scan(c, [r]).index, r);
  }

  lemma OneRowAt(t: I.Tables, f: FileRecord)
    requires I.HoldsOnly(t, f)
    ensures forall id | id in t.rows :: id == f.fileId && t.rows[id].absolutePath == f.absolutePath
  {
    hide I.OwnChunks;
  }

  lemma LaterAsks(h: Hash, content: Bytes, chunkSize: nat)
    ensures var r := Only(h, content, chunkSize);
            && Wanted([r], [r]) == []
            && Compared([r], ManifestFiles(Place(h, content, chunkSize).server.records)).requests == []
  {
    var r := Only(h, content, chunkSize);
    assert FirstAt([r], []) == Some(r);
    hide Cut, FirstAt;
    assert [r][..0] == [];
    SelectsWanted([r], [r]);
    hide Select, Absent;
  }

  /** A later run finds the file identical and changes nothing but the index. */
  lemma LaterRun(h: Hash, content: Bytes, chunkSize: nat, c: ClientState)
    ensures var r := Only(h, content, chunkSize);
            Session(h, Place(h, content, chunkSize), Scan(c, [r]), [r]) == Progress([], Scan(c, [r]), true)
  {
    LaterAsks(h, content, chunkSize);
    hide Place, Only, Compared, Scan;
    NoSteps(h, Place(h, content, chunkSize), Scan(c, [Only(h, content, chunkSize)]));
  }

  lemma LosesNothing(h: Hash, env: Environment, c: ClientState, w: seq<FileRecord>)
    requires |w| <= 1 && forall r | r in w :: !Stale(env, c, r)
    ensures !Loses(h, env, c, w)
  {
    hide AsksBehind, TaskOf, Stale;
    assert forall i | 0 <= i < |w| :: w[..i] == [] && w[i] in w;
  }

  lemma SessionIsRun(h: Hash, env: Environment, c: ClientState, scan: seq<FileRecord>, local: seq<FileRecord>)
    requires FullScan(h, env, c, scan) && I.ListsFiles(Scan(c, scan).index, local)
    requires AllUnmistaken(h, env, Scan(c, scan), Wanted(local, env.server.records))
    ensures OneRun(h, env, c, scan, local, Session(h, env, Scan(c, scan), local).client)
  {
    hide Session, FullScan, AllUnmistaken, I.ListsFiles, MarksOf, Wanted;
  }

  /** The first run, whole. */
  lemma FirstIsRun(h: Hash, content: Bytes, chunkSize: nat) returns (d: ClientState)
    requires Alone(h, content, chunkSize)
    ensures OneRun(h, Place(h, content, chunkSize), NewClient(), [], [], d) && Synced(d, content)
    ensures var env := Place(h, content, chunkSize);
            !Loses(h, env, Scan(NewClient(), []), Wanted([], env.server.records))
  {
    var env := Place(h, content, chunkSize);
    NewIsSettled(h, content, chunkSize);
    FirstAsks(h, content, chunkSize);
    FirstRun(h, content, chunkSize);
    assert env.server.records == [Only(h, content, chunkSize)];
    hide Session, FullScan, I.ListsFiles, Synced, AllUnmistaken, Loses, Sound, Settled, Compared, Alone, Scan, Place, Only,
      OneRun, Wanted, Stale;
    NoneMistaken(h, content, chunkSize, NewClient(), [Only(h, content, chunkSize)]);
    NothingStale(env, Only(h, content, chunkSize));
    LosesNothing(h, env, NewClient(), [Only(h, content, chunkSize)]);
    SessionIsRun(h, env, NewClient(), [], []);
    d := Session(h, env, NewClient(), []).client;
  }

  /** A later run, whole. */
  lemma LaterIsRun(h: Hash, content: Bytes, chunkSize: nat, c: ClientState) returns (d: ClientState)
    requires Alone(h, content, chunkSize) && Synced(c, content)
    ensures var env, r := Place(h, content, chunkSize), Only(h, content, chunkSize);
            && OneRun(h, env, c, [r], [r], d) && Synced(d, content)
            && !Loses(h, env, Scan(c, [r]), Wanted([r], env.server.records))
  {
    var env, r := Place(h, content, chunkSize), Only(h, content, chunkSize);
    LaterAsks(h, content, chunkSize);
    LaterScanIsFull(h, content, chunkSize, c);
    LaterScan(h, content, chunkSize, c);
    LaterRun(h, content, chunkSize, c);
    hide Session, FullScan, I.ListsFiles, Synced, AllUnmistaken, Cut, Loses, Compared, Alone, MarksOf, Scan;
    d := Scan(c, [r]);
    NoneMistaken(h, content, chunkSize, d, []);
    LosesNothing(h, env, d, []);
  }

  lemma InARow(
    h: Hash, env: Environment, c0: ClientState, c1: ClientState, c2: ClientState, c3: ClientState,
    r: FileRecord) returns (cs: seq<ClientState>, scans: seq<seq<FileRecord>>, locals: seq<seq<FileRecord>>)
    requires OneRun(h, env, c0, [], [], c1) && !Loses(h, env, Scan(c0, []), Wanted([], env.server.records))
    requires OneRun(h, env, c1, [r], [r], c2) && !Loses(h, env, Scan(c1, [r]), Wanted([r], env.server.records))
    requires OneRun(h, env, c2, [r], [r], c3) && !Loses(h, env, Scan(c2, [r]), Wanted([r], env.server.records))
    ensures |scans| == 3 && Runs(h, env, cs, scans, locals) && cs[0] == c0
    ensures forall k | 0 <= k < 3 :: !RunLoses(h, env, cs, scans, locals, k)
  {
    hide OneRun, Loses, Scan, Wanted;
    cs, scans, locals := [c0, c1, c2, c3], [[], [r], [r]], [[], [r], [r]];
  }

  /** Three runs, as the law of convergence asks for one file: its hypotheses hold, and no row is lost. */
  lemma ThreeRuns(h: Hash, content: Bytes, chunkSize: nat)
    returns (cs: seq<ClientState>, scans: seq<seq<FileRecord>>, locals: seq<seq<FileRecord>>)
    requires Alone(h, content, chunkSize)
    ensures var env := Place(h, content, chunkSize);
            && |env.server.records| == 1 && |scans| == 3 && Runs(h, env, cs, scans, locals) && Sound(h, env, cs[0])
            && forall k | 0 <= k < 3 :: !RunLoses(h, env, cs, scans, locals, k)
  {
    NewIsSettled(h, content, chunkSize);
    assert |Place(h, content, chunkSize).server.records| == 1;
    hide Synced, Loses, Sound, Settled, Alone, OneRun, Scan, FullScan, Wanted, Place, Only, I.ListsFiles, Runs,
      RunLoses, NewClient;
    var c1 := FirstIsRun(h, content, chunkSize);
    var c2 := LaterIsRun(h, content, chunkSize, c1);
    var c3 := LaterIsRun(h, content, chunkSize, c2);
    cs, scans, locals := InARow(
      h, Place(h, content, chunkSize), NewClient(), c1, c2, c3, Only(h, content, chunkSize));
  }
}
