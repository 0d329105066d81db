/** Two versions of a remote file share one .part: what the resume invariant does not survive. */
module Versions {
  import opened Base
  import opened Chunks
  import opened Attempt
  import opened CommitSafety
  import opened ResumeInvariant
  import opened Convergence

  /** The state right after the first chunk was appended and marked, which a crash may leave. */
  ghost predicate FirstChunkMarked(c: Disk, job: Job, content: Bytes)
    requires |job.chunks| > 0
  {
    && InFile(job.chunks[0], content) && TempOf(job.path) in c.files
    && c.files[TempOf(job.path)] == Slice(job.chunks[0], content)
    && MarksOf(c, job.id) == map[0 := MarkOf(job.chunks[0])]
  }

  /** The loop starts from an empty .part and no marks. */
  lemma FreshStart(h: Hash, s: Disk, job: Job, content: Bytes)
    requires Stable(h, s.files, job, content) && MarkedPrefix(s, job) == 0
    ensures var s1 := Start(s, job);
            && Received(s1, job).Some? && MemoryOf(s1, job).prefix == 0
            && var o := Last(OpenTrace(s1, job, 0));
               && o.files[TempOf(job.path)] == [] && MarksOf(o, job.id) == map[]
               && FileAt(o, job.path) == FileAt(s, job.path)
               && Trace(h, s, job) == [s1] + (OpenTrace(s1, job, 0) + LoopTrace(h, o, job, MemoryOf(s1, job), 0))
  {
    var s1 := Start(s, job);
    assert MarksOf(s1, job.id) == MarksOf(s, job.id);
    AnswerArrives(h, s1, job, content);
    hide Stable, Received, LoopTrace;
    ChunkFreePath(job.path);
  }

  lemma CrashAfterFirstChunk(h: Hash, s: Disk, job: Job, content: Bytes) returns (c: Disk)
    requires Stable(h, s.files, job, content) && |job.chunks| > 0 && MarkedPrefix(s, job) == 0
    ensures CrashLeaves(h, s, job, c) && FirstChunkMarked(c, job, content)
    ensures FileAt(c, job.path) == FileAt(s, job.path)
    ensures forall id | id != job.id :: MarksOf(c, id) == MarksOf(s, id)
  {
    hide Trace, OpenTrace, Received, MemoryOf;
    var s1 := Start(s, job);
    FreshStart(h, s, job, content);
    var prep, m := OpenTrace(s1, job, 0), MemoryOf(s1, job);
    var o := Last(prep);
    StableMeans(h, s.files, job, content);
    assert MarkedPrefix(s1, job) == 0;
    assert Stable(h, s1.files, job, content);
    LoopIsSupplied(h, s1, job, content, o, 0);
    hide Stable;
    assert Supplied(h, o, job, m, content, 0);
    assert TileAt(h, job.chunks, content, 0);
    hide Tiles, MarkedPrefix;
    LoopUnfolds(h, o, job, m, content, 0);
    hide LoopTrace;
    var t := ChunkTrace(o, job, job.chunks[0], Slice(job.chunks[0], content));
    ChunkTraceFiles(o, job, job.chunks[0], Slice(job.chunks[0], content));
    c := t[1];
    assert c in t && c in [s1] + (prep + (t + LoopTrace(h, t[2], job, m, 1)));
    assert [] + Slice(job.chunks[0], content) == Slice(job.chunks[0], content);
    forall id | id != job.id
      ensures MarksOf(c, id) == MarksOf(s, id)
    {
      AttemptKeepsMarks(h, s, job, id);
    }
  }

  /** A .part that has the length of the one marked chunk and other bytes. */
  lemma WrongPart(h: Hash, c: Disk, job: Job, content: Bytes)
    requires Tiles(h, job.chunks, content) && |job.chunks| > 0
    requires MarksOf(c, job.id) == map[0 := MarkOf(job.chunks[0])]
    requires InFile(job.chunks[0], content) && TempOf(job.path) in c.files
    requires |c.files[TempOf(job.path)]| == job.chunks[0].size
    requires c.files[TempOf(job.path)] != Slice(job.chunks[0], content)
    ensures MarkedPrefix(c, job) > 0 && LengthFits(c, job, MarkedPrefix(c, job))
    ensures !PartIsPrefix(c, job.path, content) && Rank(c, job, content) == 3
  {
    var p, part := MarkedPrefix(c, job), c.files[TempOf(job.path)];
    assert TileAt(h, job.chunks, content, 0);
    assert 1 < |job.chunks| ==> TileAt(h, job.chunks, content, 1);
    assert p == 1;
    PrefixBytesIsOffset(h, job.chunks, content, 1);
    assert SizeOf(job.chunks, 1) == job.chunks[0].size;
    assert Slice(job.chunks[0], content) == content[..|part|];
  }

  /**
   After a crash in an attempt for one version and a crash in an attempt for another of the same path, whose first
   chunk has the same size and other bytes, the .part has the length of the first version's marked prefix and is not
   that prefix: the next attempt starts from the worst rank, and only the final hash check stops it.
   */
  lemma VersionsShareThePart(h: Hash, s: Disk, a: Job, b: Job, contentA: Bytes, contentB: Bytes)
    returns (c1: Disk, c2: Disk)
    requires a.path == b.path && a.id != b.id && MarkedPrefix(s, a) == 0 && MarkedPrefix(s, b) == 0
    requires Stable(h, s.files, a, contentA) && Stable(h, s.files, b, contentB)
    requires |a.chunks| > 0 && |b.chunks| > 0 && a.chunks[0].size == b.chunks[0].size
    requires InFile(a.chunks[0], contentA) && InFile(b.chunks[0], contentB)
    requires Slice(a.chunks[0], contentA) != Slice(b.chunks[0], contentB)
    ensures CrashLeaves(h, s, a, c1) && CrashLeaves(h, c1, b, c2) && FileAt(c2, a.path) == FileAt(s, a.path)
    ensures MarkedPrefix(c2, a) > 0 && LengthFits(c2, a, MarkedPrefix(c2, a))
    ensures !PartIsPrefix(c2, a.path, contentA) && Rank(c2, a, contentA) == 3
  {
    c1 := CrashAfterFirstChunk(h, s, a, contentA);
    StableMeans(h, s.files, a, contentA);
    StableSame(h, s.files, c1.files, b, contentB);
    assert MarksOf(c1, b.id) == MarksOf(s, b.id);
    hide Stable;
    c2 := CrashAfterFirstChunk(h, c1, b, contentB);
    hide CrashLeaves, Tiles;
    WrongPart(h, c2, a, contentA);
  }

  /** From such a state, which two crashes reach, a new file needs all three attempts. */
  lemma WorstCaseIsReached(h: Hash, s: Disk, a: Job, b: Job, contentA: Bytes, contentB: Bytes)
    returns (c1: Disk, c2: Disk)
    requires a.path == b.path && a.id != b.id && MarkedPrefix(s, a) == 0 && MarkedPrefix(s, b) == 0
    requires Stable(h, s.files, a, contentA) && Stable(h, s.files, b, contentB) && a.local.None?
    requires |a.chunks| > 0 && |b.chunks| > 0 && a.chunks[0].size == b.chunks[0].size
    requires InFile(a.chunks[0], contentA) && InFile(b.chunks[0], contentB)
    requires Slice(a.chunks[0], contentA) != Slice(b.chunks[0], contentB)
    ensures CrashLeaves(h, s, a, c1) && CrashLeaves(h, c1, b, c2)
    ensures CollisionFree(h, c2, a, contentA, 3) ==>
              && !HasCommitted(Attempts(h, c2, a, 1), a, contentA)
              && !HasCommitted(Attempts(h, c2, a, 2), a, contentA)
              && HasCommitted(Attempts(h, c2, a, 3), a, contentA)
  {
    c1, c2 := VersionsShareThePart(h, s, a, b, contentA, contentB);
    hide Trace, Rank, CrashLeaves;
    if CollisionFree(h, c2, a, contentA, 3) {
      StableSame(h, s.files, c2.files, a, contentA);
      hide Stable, CollisionFree;
      ThreeAreNeeded(h, c2, a, contentA);
      assert !LocalHas(h, c2.files, a, 0);
    }
  }
}
