/** Delta sync: what Compare requests, with what the local file holds, is the remote file. */
module Delta {
  import opened Base
  import opened Chunks
  import opened Attempt
  import opened CommitSafety
  import opened ResumeInvariant
  import opened Convergence
  import opened Diff

  lemma {:induction false} LookupNumbered(chunks: seq<ChunkEntry>, start: nat, i: nat)
    requires forall j | 0 <= j < |chunks| :: chunks[j].index == start + j
    requires i < |chunks|
    ensures Lookup(chunks, start + i) == Some(chunks[i])
  {
    if i > 0 {
      LookupNumbered(chunks[1..], start + 1, i - 1);
    }
  }

  /** In a cut of at most 2^32 chunks, the chunk of an index stands at that position. */
  lemma LookupCut(h: Hash, content: Bytes, chunkSize: nat, i: nat)
    requires ChunkCount(|content|, chunkSize) <= TWO_32
    ensures var r := Lookup(Cut(h, content, chunkSize), i);
            r == if i < ChunkCount(|content|, chunkSize) then Some(ChunkAt(h, content, chunkSize, i)) else None
  {
    hide ChunkCount, ChunkAt, Lookup;
    var chunks := Cut(h, content, chunkSize);
    forall j | 0 <= j < |chunks|
      ensures chunks[j].index == j
    {
      CutIndexed(h, content, chunkSize, j);
      CutIndex(h, content, chunkSize, j);
    }
    hide Cut;
    if i < |chunks| {
      CutIndexed(h, content, chunkSize, i);
      LookupNumbered(chunks, 0, i);
    }
  }

  /** The version and the local copy, cut with one chunk size. */
  ghost predicate SameCut(h: Hash, job: Job, content: Bytes, files: map<Path, Bytes>, chunkSize: nat) {
    && ChunkCount(|content|, chunkSize) <= TWO_32
    && job.chunks == Cut(h, content, chunkSize)
    && (job.local.Some? ==>
          && job.path in files
          && ChunkCount(|files[job.path]|, chunkSize) <= TWO_32
          && job.local.value == Cut(h, files[job.path], chunkSize))
  }

  /** Offsets are never compared, but a chunk Compare leaves out is in the local file at the remote offset. */
  lemma OmittedIsLocal(h: Hash, job: Job, content: Bytes, files: map<Path, Bytes>, chunkSize: nat, i: nat)
    requires SameCut(h, job, content, files, chunkSize) && job.missing == MissingOf(job.local, job.chunks)
    requires chunkSize > 0 && i < |job.chunks| && job.chunks[i] !in job.missing
    ensures LocalHas(h, files, job, i) && InFile(job.chunks[i], files[job.path])
    ensures ReadAndVerify(h, files, job.path, job.chunks[i]) == Some(Slice(job.chunks[i], files[job.path]))
  {
    hide Cut, ChunkCount, ChunkAt, Lookup, MissingOf;
    var c := job.chunks[i];
    RequestIsExact(job.local, job.chunks);
    assert c in job.chunks && HasChunk(job.local.value, c);
    var mine := files[job.path];
    CutIndexed(h, content, chunkSize, i);
    CutIndex(h, content, chunkSize, i);
    LookupCut(h, mine, chunkSize, i);
    IndexAndSizeFixOffset(h, mine, content, chunkSize, i);
    CountBounds(|content|, chunkSize, i);
  }

  /** The bytes the client has for one remote chunk. */
  function Piece(h: Hash, job: Job, content: Bytes, files: map<Path, Bytes>, c: ChunkEntry): Option<Bytes>
    requires InFile(c, content)
  {
    if c in job.missing then Some(Slice(c, content)) else ReadAndVerify(h, files, job.path, c)
  }

  /** The first n pieces, joined in manifest order. */
  ghost predicate Joined(h: Hash, job: Job, content: Bytes, files: map<Path, Bytes>, n: nat, bytes: Bytes)
    requires n <= |job.chunks|
  {
    if n == 0 then bytes == []
    else
      && var c := job.chunks[n - 1];
         && InFile(c, content) && Piece(h, job, content, files, c).Some?
         && c.size <= |bytes| && Piece(h, job, content, files, c).value == bytes[|bytes| - c.size..]
         && Joined(h, job, content, files, n - 1, bytes[..|bytes| - c.size])
  }

  lemma JoinedNone(h: Hash, job: Job, content: Bytes, files: map<Path, Bytes>)
    ensures Joined(h, job, content, files, 0, [])
  {
  }

  lemma JoinedNext(h: Hash, job: Job, content: Bytes, files: map<Path, Bytes>, n: nat, bytes: Bytes)
    requires 0 < n <= |job.chunks| && InFile(job.chunks[n - 1], content)
    requires Joined(h, job, content, files, n - 1, bytes)
    requires Piece(h, job, content, files, job.chunks[n - 1]) == Some(Slice(job.chunks[n - 1], content))
    ensures Joined(h, job, content, files, n, bytes + Slice(job.chunks[n - 1], content))
  {
    var all := bytes + Slice(job.chunks[n - 1], content);
    assert all[..|bytes|] == bytes && all[|bytes|..] == Slice(job.chunks[n - 1], content);
  }

  /** Requested chunks and local slices, joined in manifest order, are the remote file. */
  lemma {:induction false} DeltaReconstruction(
    h: Hash, job: Job, content: Bytes, files: map<Path, Bytes>, chunkSize: nat, n: nat)
    requires chunkSize > 0 && SameCut(h, job, content, files, chunkSize)
    requires job.missing == MissingOf(job.local, job.chunks) && LocalReadsAgree(h, files, job, content)
    requires n <= |job.chunks|
    ensures SizeOf(job.chunks, n) <= |content|
    ensures Joined(h, job, content, files, n, content[..SizeOf(job.chunks, n)])
    ensures n == |job.chunks| ==> content[..SizeOf(job.chunks, n)] == content
  {
    hide Cut, ChunkCount, MissingOf, LocalHas, Joined, TileAt;
    CutTiles(h, content, chunkSize);
    TilesBounds(h, job.chunks, content, n);
    if n > 0 {
      DeltaReconstruction(h, job, content, files, chunkSize, n - 1);
      TilesNext(h, job.chunks, content, n - 1);
      hide SameCut, Tiles;
      var c := job.chunks[n - 1];
      if c !in job.missing {
        OmittedIsLocal(h, job, content, files, chunkSize, n - 1);
      }
      JoinedNext(h, job, content, files, n, content[..SizeOf(job.chunks, n - 1)]);
    } else {
      JoinedNone(h, job, content, files);
    }
  }

  /** With the request Compare makes, an honest complete server and a stable local file are all that convergence needs. */
  lemma CompareGivesStable(h: Hash, job: Job, content: Bytes, files: map<Path, Bytes>, chunkSize: nat)
    requires chunkSize > 0 && SameCut(h, job, content, files, chunkSize)
    requires job.missing == MissingOf(job.local, job.chunks) && LocalReadsAgree(h, files, job, content)
    requires job.root == h(content) && job.faults == NO_FAULTS
    requires Answers(job, content)
    ensures Stable(h, files, job, content)
  {
    CutTiles(h, content, chunkSize);
    forall i | 0 <= i < |job.chunks| && job.chunks[i] !in job.missing
      ensures LocalHas(h, files, job, i)
    {
      OmittedIsLocal(h, job, content, files, chunkSize, i);
    }
    assert forall c | c in job.missing :: c in job.chunks;
  }

  /** No chunk of the version has the hash of the local file's other bytes in its place. */
  ghost predicate SlicesDoNotCollide(h: Hash, chunks: seq<ChunkEntry>, mine: Bytes, content: Bytes) {
    forall c | c in chunks && InFile(c, mine) && InFile(c, content) ::
      h(Slice(c, mine)) == h(Slice(c, content)) ==> Slice(c, mine) == Slice(c, content)
  }

  lemma ReadsAgree(h: Hash, files: map<Path, Bytes>, job: Job, content: Bytes)
    requires Tiles(h, job.chunks, content)
    requires job.path in files ==> SlicesDoNotCollide(h, job.chunks, files[job.path], content)
    ensures LocalReadsAgree(h, files, job, content)
  {
    forall i | 0 <= i < |job.chunks| && InFile(job.chunks[i], content)
      ensures var r := ReadAndVerify(h, files, job.path, job.chunks[i]);
              r.Some? ==> r.value == Slice(job.chunks[i], content)
    {
      assert TileAt(h, job.chunks, content, i) && job.chunks[i] in job.chunks;
    }
  }

  /**
   End to end: the request comes from Compare, the local record from the chunker, the frames from a server that has the
   version. Then one of the first three attempts that are not interrupted puts the version in place, whatever marks and
   .part an earlier run left behind.
   */
  lemma DeltaSyncConverges(h: Hash, s: Disk, job: Job, content: Bytes, chunkSize: nat)
    requires chunkSize > 0 && SameCut(h, job, content, s.files, chunkSize)
    requires job.missing == MissingOf(job.local, job.chunks) && job.root == h(content) && job.faults == NO_FAULTS
    requires job.path in s.files ==> SlicesDoNotCollide(h, job.chunks, s.files[job.path], content)
    requires Answers(job, content)
    requires CollisionFree(h, s, job, content, 3)
    ensures exists j :: 1 <= j <= 3 && HasCommitted(Attempts(h, s, job, j), job, content)
  {
    hide SlicesDoNotCollide, CollisionFree, Answers, Stable, Tiles, LocalReadsAgree, MissingOf;
    CutTiles(h, content, chunkSize);
    ReadsAgree(h, s.files, job, content);
    CompareGivesStable(h, job, content, s.files, chunkSize);
    ConvergesInThree(h, s, job, content);
  }
}
