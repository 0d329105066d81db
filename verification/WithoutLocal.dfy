/** An attempt whose request counts on local chunks that are not there: the index row is gone, or the file is. */
module WithoutLocal {
  import opened Base
  import opened Chunks
  import opened Attempt
  import opened CommitSafety
  import opened ResumeInvariant
  import opened Convergence
  import opened Diff

  /** No local chunk can be read: no record of a file at the path, or no file. */
  predicate NoSource(files: map<Path, Bytes>, job: Job) {
    job.local.None? || job.path !in files
  }

  /** What an attempt that fails at a chunk leaves: the final file as it was, and the chunk's index unmarked. */
  ghost predicate GaveUp(s: Disk, e: Disk, job: Job, k: nat)
    requires k < |job.chunks|
  {
    && RowOf(e, job.id).state == Failed && FileAt(e, job.path) == FileAt(s, job.path)
    && ((forall i | 0 <= i < k :: job.chunks[i].index != job.chunks[k].index) ==>
          job.chunks[k].index in MarksOf(e, job.id) ==> job.chunks[k].index in MarksOf(s, job.id))
  }

  lemma GaveUpLater(s: Disk, t: Disk, e: Disk, job: Job, j: nat, k: nat, bytes: Bytes)
    requires TempOf(job.path) in s.files && j < k < |job.chunks| && t == ChunkTrace(s, job, job.chunks[j], bytes)[2]
    requires GaveUp(t, e, job, k)
    ensures GaveUp(s, e, job, k)
  {
    ChunkFreePath(job.path);
  }

  lemma ChunkKeepsFile(s: Disk, job: Job, c: ChunkEntry, bytes: Bytes)
    requires TempOf(job.path) in s.files
    ensures FileAt(ChunkTrace(s, job, c, bytes)[2], job.path) == FileAt(s, job.path)
  {
    ChunkFreePath(job.path);
  }

  /** A chunk that was not asked for fails the attempt when there is no local one. */
  lemma {:induction false} LoopLacks(h: Hash, s: Disk, job: Job, m: Memory, j: nat, k: nat)
    requires TempOf(job.path) in s.files && j <= k < |job.chunks| && NoSource(s.files, job)
    requires m.prefix <= job.chunks[k].index && job.chunks[k].index !in m.wanted
    ensures GaveUp(s, Last(LoopTrace(h, s, job, m, j)), job, k)
    decreases |job.chunks| - j
  {
    hide CommitTrace, GaveUp, ChunkTrace;
    var c := job.chunks[j];
    if c.index < m.prefix {
      LoopLacks(h, s, job, m, j + 1, k);
    } else {
      var bytes := Supply(h, s, job, m, c);
      if bytes.Some? && !WriteFails(job, j, bytes.value) {
        assert j < k;
        var t := ChunkTrace(s, job, c, bytes.value)[2];
        ChunkKeepsFile(s, job, c, bytes.value);
        LoopLacks(h, t, job, m, j + 1, k);
        GaveUpLater(s, t, Last(LoopTrace(h, t, job, m, j + 1)), job, j, k, bytes.value);
      } else {
        GivesUp(h, s, job, m, j, k);
      }
    }
  }

  /** A chunk that is missing, or a failed write, ends the loop. */
  lemma GivesUp(h: Hash, s: Disk, job: Job, m: Memory, j: nat, k: nat)
    requires TempOf(job.path) in s.files && j <= k < |job.chunks| && m.prefix <= job.chunks[j].index
    requires var bytes := Supply(h, s, job, m, job.chunks[j]); bytes.None? || WriteFails(job, j, bytes.value)
    ensures GaveUp(s, Last(LoopTrace(h, s, job, m, j)), job, k)
  {
    hide CommitTrace, Supply;
    ChunkFreePath(job.path);
  }

  lemma TrimsIndexes(missing: seq<ChunkEntry>, prefix: nat)
    ensures Indexes(Trim(missing, prefix)) <= Indexes(missing)
  {
  }

  lemma OpenGivesUp(s: Disk, job: Job, prefix: nat, e: Disk, k: nat)
    requires k < |job.chunks| && GaveUp(Last(OpenTrace(s, job, prefix)), e, job, k)
    ensures GaveUp(s, e, job, k)
  {
    OpenKeepsFile(s, job, prefix);
    OpenMarks(s, job, prefix);
    hide OpenTrace;
    assert Last(OpenTrace(s, job, prefix)) in OpenTrace(s, job, prefix);
  }

  lemma RebuildingLacks(h: Hash, s: Disk, job: Job, k: nat)
    requires k < |job.chunks| && NoSource(s.files, job) && Received(s, job).Some?
    requires job.chunks[k].index !in Indexes(job.missing) && MarkedPrefix(s, job) <= job.chunks[k].index
    ensures GaveUp(s, Last(Rebuilding(h, s, job)), job, k)
  {
    hide LoopTrace, Received, OpenTrace, Trim, MarkedPrefix, Indexes, LengthFits, GaveUp;
    var p := MarkedPrefix(s, job);
    TrimsIndexes(job.missing, p);
    OpenKeepsFile(s, job, p);
    LoopLacks(h, Last(OpenTrace(s, job, p)), job, MemoryOf(s, job), 0, k);
    OpenGivesUp(s, job, p, Last(Rebuilding(h, s, job)), k);
  }

  /** Without a local chunk the attempt does not commit; it leaves the final file, and the chunk's index unmarked. */
  lemma AttemptLacks(h: Hash, s: Disk, job: Job, k: nat)
    requires k < |job.chunks| && NoSource(s.files, job)
    requires job.chunks[k].index !in Indexes(job.missing) && MarkedPrefix(s, job) <= job.chunks[k].index
    ensures !Commits(h, s, job)
    ensures FileAt(After(h, s, job), job.path) == FileAt(s, job.path)
    ensures (forall i | 0 <= i < k :: job.chunks[i].index != job.chunks[k].index) ==>
              job.chunks[k].index in MarksOf(After(h, s, job), job.id) ==> job.chunks[k].index in MarksOf(s, job.id)
  {
    var s1 := Start(s, job);
    assert MarkedPrefix(s1, job) == MarkedPrefix(s, job) && MarksOf(s1, job.id) == MarksOf(s, job.id);
    hide Rebuilding, Received, Indexes, MarkedPrefix, MarksOf;
    RowAfter(h, s, job);
    if Received(s1, job).Some? {
      RebuildingLacks(h, s1, job, k);
    }
  }

  // ---------- When it commits ----------

  /** Every chunk behind the marked prefix is asked for. */
  ghost predicate AsksBehind(s: Disk, job: Job) {
    forall k | MarkedPrefix(s, job) <= k < |job.chunks| :: job.chunks[k] in job.missing
  }

  lemma {:induction false} TrimsDiffering(l: seq<ChunkEntry>, remote: seq<ChunkEntry>, prefix: nat)
    requires forall c | c in remote && c.index >= prefix :: !HasChunk(l, c)
    ensures Trim(Differing(l, remote), prefix) == Trim(remote, prefix)
  {
    hide HasChunk;
    if remote != [] {
      var n := |remote| - 1;
      assert remote == remote[..n] + [remote[n]];
      TrimsDiffering(l, remote[..n], prefix);
      var d := Differing(l, remote[..n]);
      assert (d + [remote[n]])[..|d|] == d;
    }
  }

  /** A request that leaves out nothing behind the prefix is, once trimmed, the request for the whole file. */
  lemma AsksForAll(h: Hash, s: Disk, job: Job, l: Option<seq<ChunkEntry>>, content: Bytes)
    requires Tiles(h, job.chunks, content) && job.missing == MissingOf(l, job.chunks) && AsksBehind(s, job)
    ensures Request(s, job) == Request(s, job.(missing := job.chunks))
  {
    hide HasChunk;
    if job.missing != job.chunks {
      forall c | c in job.chunks && c.index >= MarkedPrefix(s, job)
        ensures !HasChunk(l.value, c)
      {
        var k :| 0 <= k < |job.chunks| && job.chunks[k] == c;
        assert TileAt(h, job.chunks, content, k);
      }
      hide Tiles, MarkedPrefix;
      TrimsDiffering(l.value, job.chunks, MarkedPrefix(s, job));
    }
  }

  /** The server sends every chunk of the version, asked for or not. */
  ghost predicate AnswersAll(h: Hash, files: map<Path, Bytes>, job: Job, content: Bytes) {
    && Tiles(h, job.chunks, content) && job.root == h(content) && job.faults == NO_FAULTS
    && LocalReadsAgree(h, files, job, content) && Answers(job.(missing := job.chunks), content)
  }

  /** Asked for whole, the version is sent whole: nothing is left out. */
  lemma WholeIsStable(h: Hash, files: map<Path, Bytes>, job: Job, content: Bytes)
    requires AnswersAll(h, files, job, content)
    ensures Stable(h, files, job.(missing := job.chunks), content)
  {
  }

  lemma NoPrefixIsLocal(h: Hash, s: Disk, job: Job, content: Bytes)
    requires NoSource(s.files, job) && Rank(s, job, content) == 2
    ensures !PrefixIsLocal(h, s, job)
  {
    assert !LocalHas(h, s.files, job, 0);
  }

  /** What commits is the version; what does not leaves the file, and brings the next attempt nearer if all is asked for. */
  ghost predicate Ended(h: Hash, s: Disk, job: Job, content: Bytes) {
    var e := After(h, s, job);
    && (Commits(h, s, job) <==> HasCommitted(e, job, content))
    && (!Commits(h, s, job) ==> FileAt(e, job.path) == FileAt(s, job.path))
    && (!Commits(h, s, job) && AsksBehind(s, job) ==> Rank(e, job, content) < Rank(s, job, content))
  }

  lemma SameRank(s: Disk, job: Job, content: Bytes)
    ensures Rank(s, job.(missing := job.chunks), content) == Rank(s, job, content)
  {
    hide ResumePrefix, PrefixBytes, MarksOf;
  }

  /** The same attempt, as one that asks for the whole file. */
  lemma WholeEnds(h: Hash, s: Disk, job: Job, l: Option<seq<ChunkEntry>>, content: Bytes)
    requires AnswersAll(h, s.files, job, content) && NoSource(s.files, job) && AsksBehind(s, job)
    requires job.missing == MissingOf(l, job.chunks)
    requires NoCollision(h, PartContents(Trace(h, s, job), job.path), content)
    ensures Ended(h, s, job, content) && (Commits(h, s, job) <==> Rank(s, job, content) == 1)
  {
    var whole := job.(missing := job.chunks);
    AsksForAll(h, Start(s, job), job, l, content);
    WholeIsStable(h, s.files, job, content);
    SameTrace(h, s, job, whole);
    SameRank(s, job, content);
    SameRank(After(h, s, job), job, content);
    hide Trace, AnswersAll, Stable, NoCollision, PrefixIsLocal, MissingOf, AsksBehind, Request, Rank;
    if Rank(s, job, content) == 2 {
      NoPrefixIsLocal(h, s, whole, content);
    }
    CommitsExactly(h, s, whole, content);
  }

  /**
   Without local chunks an attempt commits if and only if its rank is 1 and every chunk behind the marked prefix
   is asked for.
   */
  lemma CommitsWithoutLocal(h: Hash, s: Disk, job: Job, l: Option<seq<ChunkEntry>>, content: Bytes)
    requires AnswersAll(h, s.files, job, content) && NoSource(s.files, job)
    requires job.missing == MissingOf(l, job.chunks)
    requires NoCollision(h, PartContents(Trace(h, s, job), job.path), content)
    ensures Ended(h, s, job, content)
    ensures Commits(h, s, job) <==> Rank(s, job, content) == 1 && AsksBehind(s, job)
  {
    hide Rank, NoCollision, HasCommitted, Trace;
    if AsksBehind(s, job) {
      hide AnswersAll, MissingOf, AsksBehind, Ended;
      WholeEnds(h, s, job, l, content);
    } else {
      var k :| MarkedPrefix(s, job) <= k < |job.chunks| && job.chunks[k] !in job.missing;
      NotIndexed(h, job, l, content, k);
      AttemptLacks(h, s, job, k);
      hide AnswersAll, MissingOf;
      NotCommitted(h, s, job, content);
    }
  }

  lemma NotCommitted(h: Hash, s: Disk, job: Job, content: Bytes)
    requires !Commits(h, s, job)
    ensures !HasCommitted(After(h, s, job), job, content)
  {
  }

  lemma NotIndexed(h: Hash, job: Job, l: Option<seq<ChunkEntry>>, content: Bytes, k: nat)
    requires Tiles(h, job.chunks, content) && job.missing == MissingOf(l, job.chunks)
    requires k < |job.chunks| && job.chunks[k] !in job.missing
    ensures job.chunks[k].index == k && k !in Indexes(job.missing)
  {
    assert TileAt(h, job.chunks, content, k);
    forall c | c in job.missing
      ensures c.index != k
    {
      assert c in job.chunks;
      var i :| 0 <= i < |job.chunks| && job.chunks[i] == c;
      assert TileAt(h, job.chunks, content, i);
    }
  }
}
