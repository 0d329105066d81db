/** Two files with which the client runs for ever, for any hash and chunk size. */
module Swapped {
  import opened Base
  import opened Chunks
  import opened Attempt
  import opened CommitSafety
  import opened ResumeInvariant
  import opened Convergence
  import opened Diff
  import opened Delta
  import opened Server
  import opened WithoutLocal
  import opened ClientRun
  import opened ClientLaws
  import opened StableClient
  import opened ClientConvergence
  import opened ClientSessions
  import opened Hasher
  import I = FileIndex

  const A: Path := [1]
  const B: Path := [2]

  /**
   x + t is what the server has at a, and what the client has at b; y + t is what the server has at b. x and y are one
   chunk long, t at most one.
   */
  datatype Pair = Pair(h: Hash, chunkSize: nat, x: Bytes, y: Bytes, t: Bytes)

  ghost predicate Fair(p: Pair) {
    && |p.x| == |p.y| == p.chunkSize > 0 && 0 < |p.t| <= p.chunkSize
    && p.h(p.x) != p.h(p.y) && p.h(Moved(p)) != p.h(Other(p)) && p.h(Moved(p)) != [] && p.h(Other(p)) != []
  }

  function Moved(p: Pair): Bytes { p.x + p.t }

  function Other(p: Pair): Bytes { p.y + p.t }

  function RecordOf(p: Pair, content: Bytes, path: Path): FileRecord {
    FileRecord(p.h(content), path, PathOf([], path), |content|, 0, 0, p.h(content), Cut(p.h, content, p.chunkSize))
  }

  /** The records of the server, and the client's own of b. */
  function RA(p: Pair): FileRecord { RecordOf(p, Moved(p), A) }

  function RB(p: Pair): FileRecord { RecordOf(p, Other(p), B) }

  function Mine(p: Pair): FileRecord { RecordOf(p, Moved(p), B) }

  function Place(p: Pair): Environment {
    Environment(
      State([RA(p), RB(p)], map[PathOf([], A) := Moved(p), PathOf([], B) := Other(p)]), [], p.chunkSize,
      q => NO_FAULTS, q => 0, q => false)
  }

  /** A new client: nothing indexed, nothing marked. */
  function NewClient(p: Pair): ClientState {
    ClientState(Disk(map[PathOf([], B) := Moved(p)], map[], map[]), I.EMPTY)
  }

  /** A directory walk that meets b after a. */
  function Walk(p: Pair, s: Disk): seq<FileRecord> {
    if PathOf([], A) in s.files then [RA(p), Mine(p)] else [Mine(p)]
  }

  ghost function Started(p: Pair, c: ClientState): ClientState { Scan(c, Walk(p, c.disk)) }

  /** The client after n runs, each a scan in this order and a session. */
  ghost function AfterRuns(p: Pair, n: nat): ClientState {
    if n == 0 then NewClient(p) else Session(p.h, Place(p), Started(p, AfterRuns(p, n - 1)), [Mine(p)]).client
  }

  /** A file of a full chunk and a last one. */
  lemma CutInTwo(h: Hash, head: Bytes, tail: Bytes, chunkSize: nat)
    requires |head| == chunkSize > 0 && 0 < |tail| <= chunkSize
    ensures ChunkCount(|head + tail|, chunkSize) == 2
    ensures Cut(h, head + tail, chunkSize)
         == [ChunkEntry(0, 0, chunkSize, h(head)), ChunkEntry(1, chunkSize, |tail|, h(tail))]
  {
    CountBounds(|head + tail|, chunkSize, 1);
    CountBounds(|head + tail|, chunkSize, 2);
    hide ChunkCount;
    CutIndexed(h, head + tail, chunkSize, 0);
    CutIndexed(h, head + tail, chunkSize, 1);
    assert (head + tail)[0..chunkSize] == head && (head + tail)[chunkSize..|head + tail|] == tail;
  }

  lemma ServesBoth(p: Pair)
    requires Fair(p)
    ensures StableServing(p.h, Place(p)) && TaskIdFor(RA(p)) != TaskIdFor(RB(p))
  {
    CutInTwo(p.h, p.x, p.t, p.chunkSize);
    CutInTwo(p.h, p.y, p.t, p.chunkSize);
    hide Cut, ChunkCount;
    PathOnce([], A, B);
    var ta, tb := TaskIdFor(RA(p)), TaskIdFor(RB(p));
    assert ta[|ta| - 1] == 1 && tb[|tb| - 1] == 2;
  }

  // ---------- What holds before every run ----------

  ghost predicate FilesStuck(p: Pair, s: Disk) {
    && FileAt(s, PathOf([], B)) == Some(Moved(p)) && FileAt(s, PathOf([], A)) in {None, Some(Moved(p))}
    && 1 !in MarksOf(s, TaskIdFor(RB(p))) && MarksOf(s, TaskIdFor(RA(p))) == map[]
  }

  ghost predicate Stuck(p: Pair, c: ClientState) {
    && FilesStuck(p, c.disk) && Rooted(c.index, [])
    && forall id | id in c.index.rows ::
         exists f :: f in Walk(p, c.disk) && f.absolutePath == c.index.rows[id].absolutePath
  }

  lemma RecordIsScanned(p: Pair, files: map<Path, Bytes>, path: Path)
    requires Fair(p) && PathOf([], path) in files && files[PathOf([], path)] == Moved(p)
    ensures var f := RecordOf(p, Moved(p), path);
            && Scanned(p.h, files, f, p.chunkSize) && |f.chunks| <= TWO_32 / 2 && f.fileId != []
            && I.Regular(f) && I.InOrder(f.chunks)
  {
    CutInTwo(p.h, p.x, p.t, p.chunkSize);
    hide Cut, ChunkCount;
  }

  lemma WalkIsFull(p: Pair, c: ClientState)
    requires Fair(p) && Stuck(p, c)
    ensures FullScan(p.h, Place(p), c, Walk(p, c.disk))
    ensures forall f | f in Walk(p, c.disk) :: I.Regular(f) && f.fileId == p.h(Moved(p))
  {
    RecordIsScanned(p, c.disk.files, B);
    if PathOf([], A) in c.disk.files {
      RecordIsScanned(p, c.disk.files, A);
    }
    hide Scanned, Cut, I.Regular, I.InOrder, I.Valid;
    assert forall f | f in Walk(p, c.disk) :: f == Mine(p) || (f == RA(p) && PathOf([], A) in c.disk.files);
  }

  /** After the scan one row is left: that of b. */
  lemma OneRow(p: Pair, c: ClientState)
    requires Fair(p) && Stuck(p, c)
    ensures I.HoldsOnly(Started(p, c).index, Mine(p)) && Indexed(p.h, Place(p), Started(p, c))
  {
    WalkIsFull(p, c);
    ScanGivesIndexed(p.h, Place(p), c, Walk(p, c.disk));
    hide I.AfterAll, I.Valid, Indexed, FullScan, I.HoldsOnly, I.Regular, FilesStuck, Cut;
    if PathOf([], A) in c.disk.files {
      assert Walk(p, c.disk) == [RA(p)] + [Mine(p)];
      I.OneContent(c.index, [RA(p)], Mine(p));
    } else {
      assert Walk(p, c.disk) == [] + [Mine(p)];
      I.OneContent(c.index, [], Mine(p));
    }
  }

  /** What is assumed of a session holds. */
  lemma IsSettled(p: Pair, c: ClientState)
    requires Fair(p) && FilesStuck(p, c.disk) && Indexed(p.h, Place(p), c)
    ensures Settled(p.h, Place(p), c)
  {
    ServesBoth(p);
    NoOtherSlices(p.h, RA(p).chunks, Moved(p));
    CutInTwo(p.h, p.x, p.t, p.chunkSize);
    CutInTwo(p.h, p.y, p.t, p.chunkSize);
    hide Cut, StableServing, Indexed, MarksOf;
    var c0, c1 := RB(p).chunks[0], RB(p).chunks[1];
    assert Slice(c0, Moved(p)) == p.x && Slice(c0, Other(p)) == p.y;
    assert Slice(c1, Moved(p)) == p.t && Slice(c1, Other(p)) == p.t;
    assert SlicesDoNotCollide(p.h, RB(p).chunks, Moved(p), Other(p));
    hide SlicesDoNotCollide;
  }

  // ---------- What a run finds, and what it asks for ----------

  lemma FindsB(p: Pair, t: I.Tables)
    requires Fair(p) && I.HoldsOnly(t, Mine(p))
    ensures I.IdAt(t, PathOf([], B)) == Some(p.h(Moved(p))) && I.IdAt(t, PathOf([], A)) == None
    ensures I.ListsFiles(t, [Mine(p)]) && LocalAt(t, PathOf([], B)) == Some(Mine(p).chunks)
  {
    RecordIsScanned(p, map[PathOf([], B) := Moved(p)], B);
    I.HoldsOnlyLists(t, Mine(p));
    PathOnce([], A, B);
    hide I.HoldsOnly, Cut, I.ListsFiles, I.Fetches;
    FetchedIsLocal(t, PathOf([], B), Some(Mine(p)));
  }

  lemma WantsBoth(local: seq<FileRecord>, a: FileRecord, b: FileRecord)
    requires !Identical(local, ManifestOf(a)) && !Identical(local, ManifestOf(b))
    ensures Wanted(local, [a, b]) == [a, b]
  {
    hide Identical;
    assert [a, b][..1] == [a] && [a][..0] == [];
    assert Wanted(local, [a]) == [a];
  }

  lemma AsksForBoth(p: Pair, c: ClientState)
    requires Fair(p) && Indexed(p.h, Place(p), c) && I.HoldsOnly(c.index, Mine(p))
    ensures Compared([Mine(p)], ManifestFiles(Place(p).server.records)).requests
         == Asking(Place(p), c.index, [RA(p), RB(p)])
  {
    FindsB(p, c.index);
    assert FirstAt([Mine(p)], A).None? && FirstAt([Mine(p)], B) == Some(Mine(p));
    hide Indexed, I.ListsFiles, Compared, ManifestFiles, Asking, FirstAt, I.HoldsOnly, Cut;
    WantsBoth([Mine(p)], RA(p), RB(p));
    SessionAsks(p.h, Place(p), c, [Mine(p)]);
  }

  /** Of two chunks the first differs. */
  lemma FirstDiffers(mine: seq<ChunkEntry>, theirs: seq<ChunkEntry>)
    requires |mine| == |theirs| == 2
    requires mine[0].index == theirs[0].index == 0 && mine[1].index == theirs[1].index == 1
    requires mine[0].hash != theirs[0].hash && mine[1].hash == theirs[1].hash && mine[1].size == theirs[1].size
    ensures MissingOf(Some(mine), theirs) == [theirs[0]]
  {
    assert Lookup(mine, 0) == Some(mine[0]);
    assert Lookup(mine[1..], 1) == Some(mine[1]) && Lookup(mine, 1) == Some(mine[1]);
    hide Lookup;
    assert theirs[..1] == [theirs[0]] && theirs[..1][..0] == [];
    assert Differing(mine, theirs[..1]) == [theirs[0]];
  }

  /** The second chunk of b is left out of its request, and not marked. */
  lemma LeavesOutTheSecond(p: Pair, c: ClientState)
    requires Fair(p) && I.HoldsOnly(c.index, Mine(p)) && 1 !in MarksOf(c.disk, TaskIdFor(RB(p)))
    ensures LeftOut(c, ManifestOf(RB(p)), RequestOf(Place(p), c.index, RB(p)), 1)
  {
    FindsB(p, c.index);
    CutInTwo(p.h, p.x, p.t, p.chunkSize);
    CutInTwo(p.h, p.y, p.t, p.chunkSize);
    FirstDiffers(Mine(p).chunks, RB(p).chunks);
    hide MissingOf, LocalAt, I.HoldsOnly, MarksOf, I.ListsFiles, Cut;
    assert RequestOf(Place(p), c.index, RB(p)).missing == [RB(p).chunks[0]];
    assert ResumePrefix(MarksOf(c.disk, TaskIdFor(RB(p))), RB(p).chunks, 0) <= 1;
  }

  // ---------- What a run leaves ----------

  /** The index holds a's file only. */
  ghost predicate RowAtA(p: Pair, t: I.Tables) {
    && I.Valid(t)
    && exists f ::
         && I.HoldsOnly(t, f) && f.fileId == p.h(Moved(p)) && f.absolutePath == PathOf([], A) && f.relativePath == A
  }

  /** The attempt for a commits it. */
  lemma ACommits(p: Pair, c: ClientState)
    requires Fair(p) && FilesStuck(p, c.disk) && Indexed(p.h, Place(p), c) && I.IdAt(c.index, PathOf([], A)).None?
    ensures var qa := RequestOf(Place(p), c.index, RA(p));
            var next, f := Step(p.h, Place(p), c, qa), Refreshed(p.h, Place(p), qa, Moved(p));
            && StableServing(p.h, Place(p)) && Settled(p.h, Place(p), c) && Tried(p.h, Place(p), c, RA(p), qa)
            && next.going && FileAt(next.client.disk, PathOf([], A)) == Some(Moved(p))
            && MarksOf(next.client.disk, TaskIdFor(RA(p))) == map[]
            && I.Upsert(c.index, f).Ok? && next.client.index == I.Upsert(c.index, f).value
            && f.fileId == p.h(Moved(p)) && f.absolutePath == PathOf([], A) && f.relativePath == A
  {
    var env, qa := Place(p), RequestOf(Place(p), c.index, RA(p));
    IsSettled(p, c);
    hide Indexed, I.Upsert, Cut, Step, MissingOf, StableServing, SlicesApart, LocalAt, FilesStuck, Tried, Commits, After;
    assert MarksOf(c.disk, TaskIdFor(RA(p))) == map[] by { AIsUnmarked(p, c.disk); }
    UnmarkedIsTried(p.h, env, c, RA(p));
    StepLeaves(p.h, env, c, RA(p), qa);
  }

  lemma AIsUnmarked(p: Pair, s: Disk)
    requires FilesStuck(p, s)
    ensures MarksOf(s, TaskIdFor(RA(p))) == map[]
  {
    hide MarksOf, TaskIdFor;
  }

  /** The attempt for a commits it, and takes b's row. */
  lemma StepForA(p: Pair, c: ClientState)
    requires Fair(p) && FilesStuck(p, c.disk) && Indexed(p.h, Place(p), c) && I.HoldsOnly(c.index, Mine(p))
    ensures var next := Step(p.h, Place(p), c, RequestOf(Place(p), c.index, RA(p)));
            var d := next.client;
            && next.going && RowAtA(p, d.index) && LocalAt(d.index, PathOf([], B)).None? && FilesStuck(p, d.disk)
            && PathOf([], A) in d.disk.files && MarksOf(d.disk, TaskIdFor(RB(p))) == MarksOf(c.disk, TaskIdFor(RB(p)))
  {
    var env, qa := Place(p), RequestOf(Place(p), c.index, RA(p));
    PathOnce([], A, B);
    FindsB(p, c.index);
    ACommits(p, c);
    assert I.Valid(c.index);
    hide Step, Cut, Settled, StableServing, Tried, I.Upsert, I.ListsFiles, I.HoldsOnly, MissingOf, Refreshed, Indexed,
      I.Valid, LocalAt, MarksOf;
    OtherStaysIndexed(p.h, env, c, RA(p), qa, RB(p));
    var d := Step(p.h, env, c, qa).client;
    I.UpsertReplaces(c.index, Refreshed(p.h, env, qa, Moved(p)));
    FetchedIsLocal(d.index, PathOf([], B), None);
  }

  /** The attempt for b fails for want of its second chunk, and changes nothing that matters. */
  lemma StepForB(p: Pair, c: ClientState, q: ChunksRequest)
    requires Fair(p) && FilesStuck(p, c.disk) && LocalAt(c.index, PathOf([], B)).None?
    requires For(q, RB(p)) && LeftOut(c, ManifestOf(RB(p)), q, 1)
    ensures var next := Step(p.h, Place(p), c, q);
            && !next.going && next.client.index == c.index && FilesStuck(p, next.client.disk)
            && FileAt(next.client.disk, PathOf([], A)) == FileAt(c.disk, PathOf([], A))
  {
    PathOnce([], A, B);
    ServesBoth(p);
    FindsRecord(p.h, Place(p), RB(p));
    CutInTwo(p.h, p.y, p.t, p.chunkSize);
    assert |PathOf([], A)| != |TempOf(PathOf([], B))| && TaskIdOf(q) == TaskIdFor(RB(p));
    hide Step, LeftOut, LocalAt, MarksOf, TaskIdOf, TaskIdFor, StableServing, Cut, FindRemoteFile, ManifestFiles, Fair;
    StepKeepsFile(p.h, Place(p), c, q, PathOf([], A));
    StepKeepsMarks(p.h, Place(p), c, q, TaskIdFor(RA(p)));
    NoLocalFails(p.h, Place(p), c, q, 1);
    assert RB(p).chunks[0].index != RB(p).chunks[1].index == 1;
  }

  lemma StuckAgain(p: Pair, c: ClientState)
    requires Fair(p) && FilesStuck(p, c.disk) && PathOf([], A) in c.disk.files && RowAtA(p, c.index)
    ensures Stuck(p, c)
  {
    var walk := Walk(p, c.disk);
    assert walk[0] == RA(p);
    hide I.Valid, I.OwnChunks, Cut, FilesStuck;
  }

  lemma StillLeftOut(p: Pair, c: ClientState, d: ClientState, q: ChunksRequest)
    requires LeftOut(c, ManifestOf(RB(p)), q, 1) && TaskIdOf(q) == TaskIdFor(RB(p))
    requires MarksOf(d.disk, TaskIdFor(RB(p))) == MarksOf(c.disk, TaskIdFor(RB(p)))
    ensures LeftOut(d, ManifestOf(RB(p)), q, 1)
  {
    hide MarksOf, Cut;
  }

  /** A session commits a, fails at b, and leaves what the next run starts from. */
  lemma BothSteps(p: Pair, c: ClientState)
    requires Fair(p) && FilesStuck(p, c.disk) && Indexed(p.h, Place(p), c) && I.HoldsOnly(c.index, Mine(p))
    ensures var s := Steps(p.h, Place(p), c,
                           [RequestOf(Place(p), c.index, RA(p)), RequestOf(Place(p), c.index, RB(p))]);
            !s.going && Stuck(p, s.client)
  {
    var env, qa, qb := Place(p), RequestOf(Place(p), c.index, RA(p)), RequestOf(Place(p), c.index, RB(p));
    TwoSteps(p.h, env, c, qa, qb);
    LeavesOutTheSecond(p, c);
    hide Step, Steps, LocalAt, MissingOf, I.HoldsOnly, Stuck, FilesStuck, Indexed, LeftOut, Fair, Cut, MarksOf, RowAtA;
    StepForA(p, c);
    var d := Step(p.h, env, c, qa).client;
    StillLeftOut(p, c, d, qb);
    StepForB(p, d, qb);
    StuckAgain(p, Step(p.h, env, d, qb).client);
  }

  /** A run: nothing is acknowledged, and the next run starts from the same. */
  lemma RunStaysStuck(p: Pair, c: ClientState)
    requires Fair(p) && Stuck(p, c)
    ensures FullScan(p.h, Place(p), c, Walk(p, c.disk)) && I.ListsFiles(Started(p, c).index, [Mine(p)])
    ensures var s := Session(p.h, Place(p), Started(p, c), [Mine(p)]);
            !s.going && Stuck(p, s.client)
  {
    WalkIsFull(p, c);
    OneRow(p, c);
    var s := Started(p, c);
    FindsB(p, s.index);
    AsksForBoth(p, s);
    hide FullScan, I.ListsFiles, Compared, ManifestFiles, Steps, I.HoldsOnly, MissingOf, LocalAt, I.AfterAll, Indexed, Fair,
      Cut, FilesStuck, I.Regular;
    var qa, qb := RequestOf(Place(p), s.index, RA(p)), RequestOf(Place(p), s.index, RB(p));
    assert Asking(Place(p), s.index, [RA(p), RB(p)]) == [qa, qb];
    assert FilesStuck(p, s.disk);
    BothSteps(p, s);
  }

  lemma StuckAtStart(p: Pair)
    requires Fair(p)
    ensures Stuck(p, NewClient(p))
  {
    PathOnce([], A, B);
    hide Cut;
  }

  lemma {:induction false} StuckAlways(p: Pair, n: nat)
    requires Fair(p)
    ensures Stuck(p, AfterRuns(p, n))
  {
    hide Stuck, Session, FullScan, I.ListsFiles, Fair, Started, NewClient, Place;
    if n == 0 {
      StuckAtStart(p);
    } else {
      StuckAlways(p, n - 1);
      RunStaysStuck(p, AfterRuns(p, n - 1));
    }
  }

  /**
   With stable files, nothing marked at the start, and full scans that meet b after a, no number of runs leads to an
   acknowledgement, for any hash and chunk size: each time a takes b's row, and the scan gives it back.
   */
  lemma NeverAcknowledged(p: Pair, n: nat)
    requires Fair(p)
    ensures StableServing(p.h, Place(p))
    ensures var c := AfterRuns(p, n);
            && FullScan(p.h, Place(p), c, Walk(p, c.disk)) && I.ListsFiles(Started(p, c).index, [Mine(p)])
            && !Session(p.h, Place(p), Started(p, c), [Mine(p)]).going
  {
    ServesBoth(p);
    StuckAlways(p, n);
    hide StableServing, Stuck, Session, FullScan, I.ListsFiles, Fair, AfterRuns, Started, Place, Walk;
    RunStaysStuck(p, AfterRuns(p, n));
  }

  /** The chunk size of both programs. */
  const CHUNK_SIZE: nat := 4 * 1024 * 1024

  /** With the programs' own hash and chunk size: first chunks and files that MD5 tells apart. */
  lemma NeverWithMd5(x: Bytes, y: Bytes, t: Bytes, n: nat)
    requires |x| == |y| == CHUNK_SIZE && 0 < |t| <= CHUNK_SIZE
    requires MD5HEX(x) != MD5HEX(y) && MD5HEX(x + t) != MD5HEX(y + t)
    ensures var p := Pair(MD5HEX, CHUNK_SIZE, x, y, t);
            && StableServing(MD5HEX, Place(p))
            && !Session(MD5HEX, Place(p), Started(p, AfterRuns(p, n)), [Mine(p)]).going
  {
    var p := Pair(MD5HEX, CHUNK_SIZE, x, y, t);
    Md5HexLength(x + t);
    Md5HexLength(y + t);
    hide Session, StableServing, Place, AfterRuns, Started, FullScan;
    NeverAcknowledged(p, n);
  }
}
