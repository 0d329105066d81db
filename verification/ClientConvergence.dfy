/** Whole sessions with stable files: when one is acknowledged, and how many it takes until every file is in place. */
module ClientConvergence {
  import opened Base
  import opened Chunks
  import opened Attempt
  import opened CommitSafety
  import opened ResumeInvariant
  import opened Convergence
  import opened Diff
  import opened Server
  import opened WithoutLocal
  import opened ClientRun
  import opened ClientLaws
  import opened StableClient
  import I = FileIndex

  // ---------- The requests of a session ----------

  /** The records Compare makes requests for, in order. */
  function Wanted(local: seq<FileRecord>, records: seq<FileRecord>): (w: seq<FileRecord>)
    ensures forall r :: r in w <==> r in records && !Identical(local, ManifestOf(r))
  {
    if records == [] then []
    else
      var front, r := Wanted(local, records[..|records| - 1]), records[|records| - 1];
      assert records == records[..|records| - 1] + [r];
      if Identical(local, ManifestOf(r)) then front else front + [r]
  }

  lemma {:induction false} SelectsWanted(local: seq<FileRecord>, records: seq<FileRecord>)
    ensures Select(local, ManifestFiles(records), false) == ManifestFiles(Wanted(local, records))
  {
    hide Identical;
    if records != [] {
      var n := |records| - 1;
      SelectsWanted(local, records[..n]);
      assert ManifestFiles(records)[..n] == ManifestFiles(records[..n]);
      var w := Wanted(local, records[..n]);
      assert ManifestFiles(w + [records[n]]) == ManifestFiles(w) + [ManifestOf(records[n])];
    }
  }

  lemma {:induction false} WantedAreDistinct(local: seq<FileRecord>, records: seq<FileRecord>)
    requires DistinctIds(records)
    ensures DistinctIds(Wanted(local, records))
  {
    if records != [] {
      var n := |records| - 1;
      WantedAreDistinct(local, records[..n]);
      var w := Wanted(local, records[..n]);
      forall i | 0 <= i < |w|
        ensures w[i].fileId != records[n].fileId
      {
        assert w[i] in w;
        var k :| 0 <= k < n && records[..n][k] == w[i];
      }
    }
  }

  /** The requests for some records, from what is indexed. */
  ghost function Asking(env: Environment, t: I.Tables, w: seq<FileRecord>): (q: seq<ChunksRequest>)
    ensures |q| == |w| && forall i | 0 <= i < |w| :: q[i] == RequestOf(env, t, w[i])
  {
    seq(|w|, i requires 0 <= i < |w| => RequestOf(env, t, w[i]))
  }

  lemma PathOnce(root: Path, a: Path, b: Path)
    ensures PathOf(root, a) == PathOf(root, b) ==> a == b
  {
    assert PathOf(root, a)[|root| + 1..] == a && PathOf(root, b)[|root| + 1..] == b;
  }

  lemma RowIsListed(env: Environment, t: I.Tables, local: seq<FileRecord>, r: FileRecord, id: Str)
    requires id in t.rows && t.rows[id].absolutePath == Where(env, r) && I.ListsFiles(t, local)
    requires t.rows[id].absolutePath == PathOf(env.root, t.rows[id].relativePath)
    ensures FirstAt(local, r.relativePath).Some?
  {
    var i :| 0 <= i < |local| && local[i].fileId == id;
    assert I.Fetches(t, Some(id), Some(local[i])) && local[i] in local;
    PathOnce(env.root, local[i].relativePath, r.relativePath);
  }

  /** What Compare sees of a record in a list of the index is what is indexed at the record's path. */
  lemma ListedIsLocal(h: Hash, env: Environment, c: ClientState, local: seq<FileRecord>, r: FileRecord)
    requires Indexed(h, env, c) && I.ListsFiles(c.index, local) && r in env.server.records
    ensures ChunksAt(local, r.relativePath) == LocalAt(c.index, Where(env, r))
    ensures Identical(local, ManifestOf(r)) && Where(env, r) in c.disk.files ==>
              h(c.disk.files[Where(env, r)]) == r.rootHash
  {
    var t, path := c.index, Where(env, r);
    assert IndexedAt(h, env, c, path);
    if I.IdAt(t, path).Some? {
      RowIsListed(env, t, local, r, I.IdAt(t, path).value);
    }
    var first := FirstAt(local, r.relativePath);
    if first.Some? {
      var f := first.value;
      var i :| 0 <= i < |local| && local[i] == f;
      assert I.Fetches(t, Some(f.fileId), Some(f));
      assert t.rows[f.fileId].absolutePath == path && I.IdAt(t, path) == Some(f.fileId);
      FetchedIsLocal(t, path, Some(f));
    } else {
      FetchedIsLocal(t, path, None);
    }
  }

  /** A session's requests are those for the wanted records. */
  lemma SessionAsks(h: Hash, env: Environment, c: ClientState, local: seq<FileRecord>)
    requires Indexed(h, env, c) && I.ListsFiles(c.index, local)
    ensures Compared(local, ManifestFiles(env.server.records)).requests
         == Asking(env, c.index, Wanted(local, env.server.records))
  {
    var records := env.server.records;
    var w := Wanted(local, records);
    SelectsWanted(local, records);
    hide Indexed, I.ListsFiles, Identical, MissingOf, LocalAt, ChunksAt, Select;
    var requests := Compared(local, ManifestFiles(records)).requests;
    forall i | 0 <= i < |w|
      ensures requests[i] == Asking(env, c.index, w)[i]
    {
      assert w[i] in w;
      ListedIsLocal(h, env, c, local, w[i]);
    }
    assert requests == Asking(env, c.index, w);
  }

  // ---------- The work that is left ----------

  /** The rank of a record's next attempt, less one; 0 when it is sure to commit. */
  function Work(env: Environment, s: Disk, r: FileRecord): (n: nat)
    requires r.absolutePath in env.server.files
    ensures n <= 2
  {
    var job := Job(Where(env, r), TaskIdFor(r), r.chunks, r.rootHash, [], None, AnswerWith([]), NO_FAULTS);
    Rank(s, job, ContentOf(env, r)) - 1
  }

  lemma WorkIsRank(h: Hash, env: Environment, t: I.Tables, s: Disk, r: FileRecord, q: ChunksRequest)
    requires r.absolutePath in env.server.files && For(q, r)
    ensures Rank(s, TaskWith(h, env, t, r, q), ContentOf(env, r)) == Work(env, s, r) + 1
  {
    hide ResumePrefix, PrefixBytes, MarksOf, LocalAt;
  }

  lemma SameWork(env: Environment, s: Disk, t: Disk, r: FileRecord)
    requires r.absolutePath in env.server.files && SameFiles(env, s, t, r)
    ensures Work(env, t, r) == Work(env, s, r)
  {
    hide ResumePrefix, PrefixBytes, MarksOf;
  }

  // ---------- Rows that are taken ----------

  /** The row indexed at a record's path has the hash of a file that was committed. */
  ghost predicate TakenBy(env: Environment, t: I.Tables, done: seq<FileRecord>, r: FileRecord) {
    exists u :: u in done && I.IdAt(t, Where(env, r)) == Some(u.fileId)
  }

  /** What counts for a record once others are done: its files are the same, and its row is there unless it was taken. */
  ghost predicate Since(env: Environment, c: ClientState, d: ClientState, done: seq<FileRecord>, r: FileRecord) {
    && SameFiles(env, c.disk, d.disk, r)
    && I.IdAt(d.index, Where(env, r))
       == if TakenBy(env, c.index, done, r) then None else I.IdAt(c.index, Where(env, r))
  }

  /** No local chunk of the record can be read: its row is taken, or its file was gone from the start. */
  ghost predicate Gone(env: Environment, c: ClientState, done: seq<FileRecord>, r: FileRecord) {
    TakenBy(env, c.index, done, r) || Stale(env, c, r)
  }

  lemma LocalSince(
    h: Hash, env: Environment, c: ClientState, d: ClientState, done: seq<FileRecord>, r: FileRecord)
    requires IndexedAt(h, env, c, Where(env, r)) && IndexedAt(h, env, d, Where(env, r)) && Since(env, c, d, done, r)
    ensures if Gone(env, c, done, r) then LocalAt(d.index, Where(env, r)).None? || Where(env, r) !in d.disk.files
            else LocalAt(d.index, Where(env, r)) == LocalAt(c.index, Where(env, r)) && !Stale(env, d, r)
  {
    hide Cut, LocalAt, MarksOf, I.OwnChunks, ChunkCount, TakenBy;
    if !Stale(env, c, r) {
      LocalIsCut(h, env, c, Where(env, r));
      LocalIsCut(h, env, d, Where(env, r));
    }
  }

  /** The record's attempt commits: with its local chunks, or without. */
  ghost predicate Goes(h: Hash, env: Environment, c: ClientState, done: seq<FileRecord>, r: FileRecord)
    requires r.absolutePath in env.server.files
  {
    if Gone(env, c, done, r) then ReadyAlone(h, env, c, r) else Ready(h, env, c, r)
  }

  /** A chunk behind the record's marked prefix was to come from a local file that is gone, or whose row is. */
  ghost predicate Lost(h: Hash, env: Environment, c: ClientState, done: seq<FileRecord>, r: FileRecord) {
    Gone(env, c, done, r) && !AsksBehind(c.disk, TaskOf(h, env, c.index, r))
  }

  lemma SameAlone(h: Hash, env: Environment, c: ClientState, d: ClientState, r: FileRecord)
    requires r.absolutePath in env.server.files && SameFiles(env, c.disk, d.disk, r)
    ensures var q := RequestOf(env, c.index, r);
            var before, now := TaskOf(h, env, c.index, r), TaskWith(h, env, d.index, r, q);
            && Rank(d.disk, now, ContentOf(env, r)) == Rank(c.disk, before, ContentOf(env, r))
            && (AsksBehind(d.disk, now) <==> AsksBehind(c.disk, before))
  {
    hide ResumePrefix, PrefixBytes, MarksOf, LocalAt, MissingOf;
  }

  lemma SameReady(h: Hash, env: Environment, c: ClientState, d: ClientState, r: FileRecord)
    requires r.absolutePath in env.server.files && SameFiles(env, c.disk, d.disk, r)
    requires LocalAt(d.index, Where(env, r)) == LocalAt(c.index, Where(env, r))
    ensures RequestOf(env, d.index, r) == RequestOf(env, c.index, r)
    ensures Ready(h, env, d, r) <==> Ready(h, env, c, r)
  {
    hide ResumePrefix, PrefixBytes, MarksOf, LocalAt, MissingOf;
    SameWork(env, c.disk, d.disk, r);
    WorkIsRank(h, env, c.index, c.disk, r, RequestOf(env, c.index, r));
    WorkIsRank(h, env, d.index, d.disk, r, RequestOf(env, d.index, r));
    var job := TaskOf(h, env, c.index, r);
    assert MarksOf(d.disk, job.id) == MarksOf(c.disk, job.id);
    LocalHasSame(h, c.disk.files, d.disk.files, job);
  }

  // ---------- One file more ----------

  /** No record needs more attempts in t than in s. */
  ghost predicate NoMoreWork(env: Environment, s: Disk, t: Disk) {
    forall r | r in env.server.records && r.absolutePath in env.server.files :: Work(env, t, r) <= Work(env, s, r)
  }

  ghost predicate LessWork(env: Environment, s: Disk, t: Disk) {
    && NoMoreWork(env, s, t)
    && exists r :: r in env.server.records && r.absolutePath in env.server.files && Work(env, t, r) < Work(env, s, r)
  }

  /** Records of the server, each once, whose files it can read. */
  ghost predicate Records(env: Environment, w: seq<FileRecord>) {
    DistinctIds(w) && forall r | r in w :: r in env.server.records && r.absolutePath in env.server.files
  }

  /** How the attempt for a record ends, with its local chunks or without. */
  lemma FileEnds(h: Hash, env: Environment, c: ClientState, d: ClientState, done: seq<FileRecord>, r: FileRecord)
    requires Settled(h, env, c) && Settled(h, env, d) && Since(env, c, d, done, r)
    requires r in env.server.records && r.absolutePath in env.server.files
    requires Unmistaken(h, env, d, r, RequestOf(env, c.index, r))
    ensures var q := RequestOf(env, c.index, r);
            var job, content := TaskWith(h, env, d.index, r, q), ContentOf(env, r);
            && Tried(h, env, d, r, q)
            && (Commits(h, d.disk, job) <==> Goes(h, env, c, done, r))
            && (Commits(h, d.disk, job) || Lost(h, env, c, done, r)
                || Rank(After(h, d.disk, job), job, content) < Rank(d.disk, job, content))
  {
    assert IndexedAt(h, env, c, Where(env, r)) && IndexedAt(h, env, d, Where(env, r));
    LocalSince(h, env, c, d, done, r);
    hide IndexedAt, Settled, Unmistaken, LocalAt, MissingOf, Commits, Rank, AsksBehind, SameFiles, Gone, Stale, After,
      HasCommitted, PrefixIsLocal;
    var q := RequestOf(env, c.index, r);
    if Gone(env, c, done, r) {
      EndsWithoutRow(h, env, d, r, q, LocalAt(c.index, Where(env, r)));
      SameAlone(h, env, c, d, r);
    } else {
      hide Ready, Lost, Ended;
      SameReady(h, env, c, d, r);
      EndsWithRow(h, env, d, r);
    }
  }

  /** A step's own record: done, nearer to it, or lost. */
  lemma StepWorks(h: Hash, env: Environment, d: ClientState, r: FileRecord, q: ChunksRequest)
    requires Settled(h, env, d) && r in env.server.records && r.absolutePath in env.server.files
    requires Tried(h, env, d, r, q)
    ensures var p, job := Step(h, env, d, q), TaskWith(h, env, d.index, r, q);
            && (p.going ==> Work(env, p.client.disk, r) == 0)
            && (Rank(After(h, d.disk, job), job, ContentOf(env, r)) < Rank(d.disk, job, ContentOf(env, r)) ==>
                  Work(env, p.client.disk, r) < Work(env, d.disk, r))
  {
    var p, job := Step(h, env, d, q), TaskWith(h, env, d.index, r, q);
    StepLeaves(h, env, d, r, q);
    WorkIsRank(h, env, d.index, p.client.disk, r, q);
    WorkIsRank(h, env, d.index, d.disk, r, q);
    hide Settled, Tried, Step, I.Upsert, Refreshed, ResumePrefix, After, LengthFits, Commits, Work;
    if p.going {
      ClearedHasNoPrefix(p.client.disk, job);
    }
  }

  lemma TakesOnlyFor(env: Environment, c: ClientState, done: seq<FileRecord>, r: FileRecord, u: FileRecord)
    ensures TakenBy(env, c.index, done + [r], u)
       <==> TakenBy(env, c.index, done, u) || I.IdAt(c.index, Where(env, u)) == Some(r.fileId)
  {
    assert forall v :: v in done + [r] <==> v in done || v == r;
  }

  /** What a committed file leaves for another record. */
  lemma SinceNext(
    h: Hash, env: Environment, c: ClientState, d: ClientState, e: ClientState, done: seq<FileRecord>, r: FileRecord,
    u: FileRecord)
    requires Since(env, c, d, done, u) && SameFiles(env, d.disk, e.disk, u)
    requires RowSince(env, d.index, e.index, r, true, u)
    ensures Since(env, c, e, done + [r], u)
  {
    TakesOnlyFor(env, c, done, r, u);
    hide TakenBy, MarksOf;
  }

  lemma WorkElsewhere(h: Hash, env: Environment, d: ClientState, r: FileRecord, q: ChunksRequest)
    requires Settled(h, env, d) && r in env.server.records && r.absolutePath in env.server.files
    requires Tried(h, env, d, r, q)
    ensures var e := Step(h, env, d, q).client;
            && (forall u | u in env.server.records && u != r && u.absolutePath in env.server.files ::
                  Work(env, e.disk, u) == Work(env, d.disk, u))
            && (Work(env, e.disk, r) <= Work(env, d.disk, r) ==> NoMoreWork(env, d.disk, e.disk))
            && (Work(env, e.disk, r) < Work(env, d.disk, r) ==> LessWork(env, d.disk, e.disk))
  {
    hide Settled, Tried, Step, Work, SameFiles, IndexedAt, RowSince;
    var e := Step(h, env, d, q).client;
    forall u | u in env.server.records && u != r && u.absolutePath in env.server.files
      ensures Work(env, e.disk, u) == Work(env, d.disk, u)
    {
      OtherStaysIndexed(h, env, d, r, q, u);
      SameWork(env, d.disk, e.disk, u);
    }
  }

  /** One more file, when the session started from c and is now at d. */
  lemma NextFile(h: Hash, env: Environment, c: ClientState, d: ClientState, done: seq<FileRecord>, r: FileRecord)
    requires Settled(h, env, c) && Settled(h, env, d) && Since(env, c, d, done, r)
    requires r in env.server.records && r.absolutePath in env.server.files
    requires Unmistaken(h, env, d, r, RequestOf(env, c.index, r))
    ensures var p := Step(h, env, d, RequestOf(env, c.index, r));
            && Settled(h, env, p.client)
            && (p.going <==> Goes(h, env, c, done, r))
            && (if p.going then NoMoreWork(env, d.disk, p.client.disk)
                else LessWork(env, d.disk, p.client.disk) || Lost(h, env, c, done, r))
            && (p.going ==>
                  forall u | u in env.server.records && u != r && Since(env, c, d, done, u) ::
                    Since(env, c, p.client, done + [r], u))
  {
    hide Settled, Unmistaken, Step, Goes, Lost, RequestOf, NoMoreWork, LessWork, Rank, Since, Tried, Work, After, Commits;
    var q := RequestOf(env, c.index, r);
    FileEnds(h, env, c, d, done, r);
    SettledStays(h, env, d, r, q);
    StepWorks(h, env, d, r, q);
    StepLeaves(h, env, d, r, q);
    WorkElsewhere(h, env, d, r, q);
    hide HasCommitted, IndexedAt, SameFiles;
    var p := Step(h, env, d, q);
    if p.going {
      forall u | u in env.server.records && u != r && Since(env, c, d, done, u)
        ensures Since(env, c, p.client, done + [r], u)
      {
        OtherStaysIndexed(h, env, d, r, q, u);
        SinceNext(h, env, c, d, p.client, done, r, u);
      }
    }
  }

  /** An unmarked file is committed, collisions or not. */
  lemma UnmarkedIsTried(h: Hash, env: Environment, c: ClientState, r: FileRecord)
    requires Settled(h, env, c) && r in env.server.records && r.absolutePath in env.server.files
    requires MarksOf(c.disk, TaskIdFor(r)) == map[] && !Stale(env, c, r)
    ensures Tried(h, env, c, r, RequestOf(env, c.index, r)) && Commits(h, c.disk, TaskOf(h, env, c.index, r))
  {
    var job := TaskOf(h, env, c.index, r);
    TaskIsStable(h, env, c, r);
    ClearedHasNoPrefix(c.disk, job);
    hide Settled, Stable, Trace, LocalAt, Scanned, MarksOf, ResumePrefix, LengthFits;
    RankOneCommits(h, c.disk, job, ContentOf(env, r));
    CommittedIsTried(h, env, c, r);
  }

  lemma CommittedIsTried(h: Hash, env: Environment, c: ClientState, r: FileRecord)
    requires r.absolutePath in env.server.files
    requires var job := TaskOf(h, env, c.index, r); HasCommitted(After(h, c.disk, job), job, ContentOf(env, r))
    ensures Tried(h, env, c, r, RequestOf(env, c.index, r)) && Commits(h, c.disk, TaskOf(h, env, c.index, r))
  {
    hide Trace, LocalAt, MissingOf, MarksOf, Rank;
  }

  // ---------- One session ----------

  /** No .part of the session collides with a version. */
  ghost predicate AllUnmistaken(h: Hash, env: Environment, c: ClientState, w: seq<FileRecord>) {
    forall i | 0 <= i < |w| && w[i].absolutePath in env.server.files ::
      var p := Steps(h, env, c, Asking(env, c.index, w)[..i]);
      p.going ==> Unmistaken(h, env, p.client, w[i], RequestOf(env, c.index, w[i]))
  }

  /** Every file commits, given the rows that the files before it take and the files that are gone. */
  ghost predicate AllGo(h: Hash, env: Environment, c: ClientState, w: seq<FileRecord>)
    requires Records(env, w)
  {
    forall i | 0 <= i < |w| :: Goes(h, env, c, w[..i], w[i])
  }

  /** Some file counts on a local chunk, behind its marked prefix, that is out of reach when its turn comes. */
  ghost predicate Loses(h: Hash, env: Environment, c: ClientState, w: seq<FileRecord>) {
    exists i :: 0 <= i < |w| && Lost(h, env, c, w[..i], w[i])
  }

  /** After some of its files: the session goes on exactly if they commit; what the others depend on is known. */
  ghost predicate SoFar(h: Hash, env: Environment, c: ClientState, w: seq<FileRecord>, p: Progress)
    requires Records(env, w)
  {
    && Settled(h, env, p.client) && (p.going <==> AllGo(h, env, c, w))
    && (if p.going then NoMoreWork(env, c.disk, p.client.disk)
        else LessWork(env, c.disk, p.client.disk) || Loses(h, env, c, w))
    && (p.going ==> forall u | u in env.server.records && u !in w :: Since(env, c, p.client, w, u))
  }

  lemma WorkSince(env: Environment, s: Disk, t: Disk, u: Disk)
    requires NoMoreWork(env, s, t)
    ensures NoMoreWork(env, t, u) ==> NoMoreWork(env, s, u)
    ensures LessWork(env, t, u) ==> LessWork(env, s, u)
  {
  }

  lemma FrontRecords(env: Environment, w: seq<FileRecord>)
    requires Records(env, w) && w != []
    ensures Records(env, w[..|w| - 1]) && w[|w| - 1] !in w[..|w| - 1]
  {
  }

  lemma LastGoes(h: Hash, env: Environment, c: ClientState, w: seq<FileRecord>)
    requires Records(env, w) && w != [] && Records(env, w[..|w| - 1])
    ensures AllGo(h, env, c, w) <==> AllGo(h, env, c, w[..|w| - 1]) && Goes(h, env, c, w[..|w| - 1], w[|w| - 1])
    ensures Loses(h, env, c, w[..|w| - 1]) || Lost(h, env, c, w[..|w| - 1], w[|w| - 1]) ==> Loses(h, env, c, w)
  {
    hide Goes, Lost;
    var n := |w| - 1;
    assert forall i | 0 <= i < n :: w[..n][..i] == w[..i] && w[..n][i] == w[i];
    if i :| 0 <= i < n && Lost(h, env, c, w[..n][..i], w[..n][i]) {
      assert Lost(h, env, c, w[..i], w[i]);
    }
  }

  lemma SameAtStart(h: Hash, env: Environment, c: ClientState)
    requires Settled(h, env, c)
    ensures SoFar(h, env, c, [], Progress([], c, true))
  {
    hide Settled, Work;
  }

  lemma OneMoreFile(h: Hash, env: Environment, c: ClientState, w: seq<FileRecord>, before: Progress)
    requires Records(env, w) && w != [] && Records(env, w[..|w| - 1]) && Settled(h, env, c)
    requires before.going && SoFar(h, env, c, w[..|w| - 1], before)
    requires Unmistaken(h, env, before.client, w[|w| - 1], RequestOf(env, c.index, w[|w| - 1]))
    ensures var p := Step(h, env, before.client, RequestOf(env, c.index, w[|w| - 1]));
            SoFar(h, env, c, w, p.(states := before.states + p.states))
  {
    hide Settled, Unmistaken, Step, Goes, Lost, Since, NoMoreWork, LessWork, AllGo, RequestOf, Loses;
    var r := w[|w| - 1];
    FrontRecords(env, w);
    assert r in w;
    NextFile(h, env, c, before.client, w[..|w| - 1], r);
    LastGoes(h, env, c, w);
    var p := Step(h, env, before.client, RequestOf(env, c.index, r));
    WorkSince(env, c.disk, before.client.disk, p.client.disk);
    assert w == w[..|w| - 1] + [r];
  }

  lemma {:induction false} FirstFiles(h: Hash, env: Environment, c: ClientState, w: seq<FileRecord>)
    requires Settled(h, env, c) && Records(env, w) && AllUnmistaken(h, env, c, w)
    ensures SoFar(h, env, c, w, Steps(h, env, c, Asking(env, c.index, w)))
  {
    hide Settled, Unmistaken, Step, RequestOf, SoFar;
    if w == [] {
      SameAtStart(h, env, c);
    } else {
      var n := |w| - 1;
      var asked := Asking(env, c.index, w);
      FrontRecords(env, w);
      assert asked[..n] == Asking(env, c.index, w[..n]);
      FrontUnmistaken(h, env, c, w);
      FirstFiles(h, env, c, w[..n]);
      var before := Steps(h, env, c, asked[..n]);
      if before.going {
        OneMoreFile(h, env, c, w, before);
      } else {
        StoppedSoFar(h, env, c, w, before);
      }
    }
  }

  lemma FrontUnmistaken(h: Hash, env: Environment, c: ClientState, w: seq<FileRecord>)
    requires Records(env, w) && w != [] && Records(env, w[..|w| - 1]) && AllUnmistaken(h, env, c, w)
    ensures AllUnmistaken(h, env, c, w[..|w| - 1])
  {
    hide Unmistaken, Steps, RequestOf, Records;
    var n := |w| - 1;
    forall i | 0 <= i < n
      ensures Asking(env, c.index, w[..n])[..i] == Asking(env, c.index, w)[..i]
    {
    }
  }

  lemma StoppedSoFar(h: Hash, env: Environment, c: ClientState, w: seq<FileRecord>, p: Progress)
    requires Records(env, w) && w != [] && Records(env, w[..|w| - 1])
    requires !p.going && SoFar(h, env, c, w[..|w| - 1], p)
    ensures SoFar(h, env, c, w, p)
  {
    hide Settled, Goes, Lost, LessWork, AllGo, Loses;
    LastGoes(h, env, c, w);
  }
}
