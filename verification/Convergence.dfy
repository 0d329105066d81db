/** Bounded convergence: with remote and local files stable, at most three attempts that are not interrupted commit. */
module Convergence {
  import opened Base
  import opened Chunks
  import opened Attempt
  import opened CommitSafety
  import opened ResumeInvariant

  /** The local record names chunk i with the same hash and size, and the local file has those bytes. */
  ghost predicate LocalHas(h: Hash, files: map<Path, Bytes>, job: Job, i: nat)
    requires i < |job.chunks|
  {
    && job.local.Some?
    && Lookup(job.local.value, i).Some?
    && Lookup(job.local.value, i).value.hash == job.chunks[i].hash
    && Lookup(job.local.value, i).value.size == job.chunks[i].size
    && ReadAndVerify(h, files, job.path, job.chunks[i]).Some?
  }

  /** The answer of a server whose file is the version: one frame a requested chunk, in order. */
  function Answer(request: seq<ChunkEntry>, content: Bytes): (r: seq<Reply>)
    requires forall c | c in request :: InFile(c, content)
    ensures |r| == |request|
  {
    seq(|request|, i requires 0 <= i < |request| =>
      assert request[i] in request;
      Data(request[i].index, Slice(request[i], content)))
  }

  /** The server answers every request for part of what Compare asked for. */
  ghost predicate Answers(job: Job, content: Bytes) {
    forall request: seq<ChunkEntry> | (forall c | c in request :: c in job.missing && InFile(c, content)) ::
      job.serve(request) == Answer(request, content)
  }

  /** A stable pair of files: what Compare did not request, the local file has; what it did, the server sends. */
  ghost predicate Stable(h: Hash, files: map<Path, Bytes>, job: Job, content: Bytes) {
    && Tiles(h, job.chunks, content) && job.root == h(content) && job.faults == NO_FAULTS
    && LocalReadsAgree(h, files, job, content)
    && (forall c | c in job.missing :: c in job.chunks)
    && (forall i | 0 <= i < |job.chunks| && job.chunks[i] !in job.missing :: LocalHas(h, files, job, i))
    && Answers(job, content)
  }

  lemma {:induction false} CollectAnswer(request: seq<ChunkEntry>, content: Bytes, n: nat)
    requires forall c | c in request :: InFile(c, content)
    requires n <= |request|
    ensures var r := Collect(Answer(request, content), n);
            r.Some? && r.value.Keys == Indexes(request[..n])
  {
    if n > 0 {
      CollectAnswer(request, content, n - 1);
      assert request[..n] == request[..n - 1] + [request[n - 1]];
      assert Indexes(request[..n]) == Indexes(request[..n - 1]) + {request[n - 1].index};
    }
  }

  lemma MissingAreInFile(h: Hash, files: map<Path, Bytes>, job: Job, content: Bytes, prefix: nat)
    requires Stable(h, files, job, content)
    ensures forall c | c in Trim(job.missing, prefix) :: InFile(c, content)
  {
    forall c | c in Trim(job.missing, prefix)
      ensures InFile(c, content)
    {
      var i :| 0 <= i < |job.chunks| && job.chunks[i] == c;
      assert TileAt(h, job.chunks, content, i);
    }
  }

  /** A frame of the answer carries the bytes of the chunk with its index. */
  lemma AnswerIsRight(h: Hash, files: map<Path, Bytes>, job: Job, content: Bytes, request: seq<ChunkEntry>, r: Reply)
    requires Stable(h, files, job, content)
    requires forall c | c in request :: c in job.missing && InFile(c, content)
    requires r in Answer(request, content)
    ensures r.Data? && r.index < |job.chunks| && InFile(job.chunks[r.index], content)
    ensures r.bytes == Slice(job.chunks[r.index], content)
  {
    var j :| 0 <= j < |request| && Answer(request, content)[j] == r;
    assert request[j] in request;
    var k :| 0 <= k < |job.chunks| && job.chunks[k] == request[j];
    assert TileAt(h, job.chunks, content, k);
  }

  /** The whole answer arrives, and the memory holds exactly the trimmed request, rightly. */
  lemma AnswerArrives(h: Hash, s: Disk, job: Job, content: Bytes)
    requires Stable(h, s.files, job, content)
    ensures Received(s, job).Some?
    ensures var m := MemoryOf(s, job);
            m.wanted == m.received.Keys == Indexes(Request(s, job)) && RightMemory(m, job, content)
  {
    var request := Request(s, job);
    MissingAreInFile(h, s.files, job, content, MarkedPrefix(s, job));
    CollectAnswer(request, content, |request|);
    assert request[..|request|] == request;
    var replies := if request == [] then [] else job.serve(request);
    assert replies == Answer(request, content);
    CollectedFrom(replies, |request|);
    hide Stable, OpenPrefix;
    var m := MemoryOf(s, job);
    assert m.received == Collect(replies, |request|).value;
    forall i | i in m.received && i < |job.chunks|
      ensures InFile(job.chunks[i], content) && m.received[i] == Slice(job.chunks[i], content)
    {
      var r := Data(i, m.received[i]);
      assert r in replies;
      AnswerIsRight(h, s.files, job, content, request, r);
    }
  }

  /** Chunk k of the version is at hand. */
  ghost predicate Supplied(h: Hash, s: Disk, job: Job, m: Memory, content: Bytes, k: nat)
    requires k < |job.chunks|
  {
    InFile(job.chunks[k], content) && Supply(h, s, job, m, job.chunks[k]) == Some(Slice(job.chunks[k], content))
  }

  /** Nothing fails from the marked prefix on. In front of it a requested chunk was not asked for again. */
  lemma SuppliedBehindPrefix(h: Hash, s: Disk, job: Job, content: Bytes, k: nat)
    requires Stable(h, s.files, job, content)
    requires MarkedPrefix(s, job) <= k < |job.chunks|
    ensures Received(s, job).Some? && Supplied(h, s, job, MemoryOf(s, job), content, k)
  {
    AnswerArrives(h, s, job, content);
    var m, c := MemoryOf(s, job), job.chunks[k];
    assert TileAt(h, job.chunks, content, k);
    if c in job.missing {
      assert c in Request(s, job);
      assert c.index in Indexes(Request(s, job));
    } else {
      assert LocalHas(h, s.files, job, k);
      if c.index in m.wanted {
        assert c.index in m.received;
      }
    }
  }

  /** What the loop has done after k chunks. */
  ghost predicate Rebuilt(s: Disk, job: Job, content: Bytes, k: nat)
    requires k <= |job.chunks|
  {
    && TempOf(job.path) in s.files && SizeOf(job.chunks, k) <= |content|
    && s.files[TempOf(job.path)] == content[..SizeOf(job.chunks, k)]
  }

  ghost predicate HasCommitted(s: Disk, job: Job, content: Bytes) {
    RowOf(s, job.id).state == Committed && FileAt(s, job.path) == Some(content) && MarksOf(s, job.id) == map[]
  }

  lemma CommitCommits(h: Hash, s: Disk, job: Job, content: Bytes)
    requires TempOf(job.path) in s.files && s.files[TempOf(job.path)] == content
    requires job.root == h(content) && job.faults == NO_FAULTS
    ensures HasCommitted(Last(CommitTrace(h, s, job)), job, content)
  {
  }

  function MarkOf(c: ChunkEntry): Mark { Mark(c.offset, c.size, c.hash) }

  /** Appending and marking chunk k of the version. */
  lemma ChunkStep(h: Hash, s: Disk, job: Job, content: Bytes, k: nat)
    requires Tiles(h, job.chunks, content) && k < |job.chunks| && Rebuilt(s, job, content, k)
    ensures InFile(job.chunks[k], content) && job.chunks[k].index == k
    ensures var t := ChunkTrace(s, job, job.chunks[k], Slice(job.chunks[k], content));
            && Rebuilt(t[2], job, content, k + 1)
            && FileAt(t[2], job.path) == FileAt(s, job.path)
            && MarksOf(t[2], job.id) == MarksOf(s, job.id)[k := MarkOf(job.chunks[k])]
  {
    assert TileAt(h, job.chunks, content, k);
    TilesNext(h, job.chunks, content, k);
    ChunkTraceFiles(s, job, job.chunks[k], Slice(job.chunks[k], content));
  }

  /** What is supplied depends on the local file only, which the loop leaves alone. */
  lemma SupplySame(h: Hash, s: Disk, t: Disk, job: Job, m: Memory, c: ChunkEntry)
    requires FileAt(s, job.path) == FileAt(t, job.path)
    ensures Supply(h, s, job, m, c) == Supply(h, t, job, m, c)
  {
  }

  ghost predicate AllSupplied(h: Hash, s: Disk, job: Job, m: Memory, content: Bytes, k: nat) {
    forall j | k <= j < |job.chunks| :: Supplied(h, s, job, m, content, j)
  }

  /** One turn of the loop. */
  lemma LoopUnfolds(h: Hash, s: Disk, job: Job, m: Memory, content: Bytes, k: nat)
    requires TempOf(job.path) in s.files && k < |job.chunks| && job.chunks[k].index == k
    requires m.prefix <= k && job.faults == NO_FAULTS && Supplied(h, s, job, m, content, k)
    ensures var t := ChunkTrace(s, job, job.chunks[k], Slice(job.chunks[k], content));
            LoopTrace(h, s, job, m, k) == t + LoopTrace(h, t[2], job, m, k + 1)
  {
    hide Supply, LoopTrace, ChunkTrace;
    LoopTurn(h, s, job, m, k, Slice(job.chunks[k], content));
  }

  lemma AllSuppliedStep(h: Hash, s: Disk, t: Disk, job: Job, m: Memory, content: Bytes, k: nat)
    requires AllSupplied(h, s, job, m, content, k) && FileAt(t, job.path) == FileAt(s, job.path)
    ensures AllSupplied(h, t, job, m, content, k + 1)
  {
    forall j | k + 1 <= j < |job.chunks|
      ensures Supplied(h, t, job, m, content, j)
    {
      SupplySame(h, s, t, job, m, job.chunks[j]);
      assert Supplied(h, s, job, m, content, j);
    }
  }

  /** With every further chunk at hand, a rightly begun .part is finished and committed. */
  lemma {:induction false} LoopCommits(h: Hash, s: Disk, job: Job, m: Memory, content: Bytes, k: nat)
    requires Tiles(h, job.chunks, content) && job.root == h(content) && job.faults == NO_FAULTS
    requires k <= |job.chunks| && m.prefix <= k && Rebuilt(s, job, content, k)
    requires AllSupplied(h, s, job, m, content, k)
    ensures HasCommitted(Last(LoopTrace(h, s, job, m, k)), job, content)
    decreases |job.chunks| - k
  {
    hide Supplied, HasCommitted, ChunkTrace, CommitTrace;
    if k == |job.chunks| {
      assert content[..|content|] == content;
      CommitCommits(h, s, job, content);
    } else {
      hide Tiles, Rebuilt;
      assert Supplied(h, s, job, m, content, k);
      ChunkStep(h, s, job, content, k);
      var t := ChunkTrace(s, job, job.chunks[k], Slice(job.chunks[k], content));
      LoopUnfolds(h, s, job, m, content, k);
      AllSuppliedStep(h, s, t[2], job, m, content, k);
      LoopCommits(h, t[2], job, m, content, k + 1);
    }
  }

  function MarksUpTo(chunks: seq<ChunkEntry>, k: nat): map<nat, Mark>
    requires k <= |chunks|
  {
    map i: nat | i < k :: MarkOf(chunks[i])
  }

  /** The .part is the first k chunks, and exactly those are marked. */
  ghost predicate Aligned(s: Disk, job: Job, content: Bytes, k: nat)
    requires k <= |job.chunks|
  {
    Rebuilt(s, job, content, k) && MarksOf(s, job.id) == MarksUpTo(job.chunks, k)
  }

  lemma SuppliedIsSlice(h: Hash, s: Disk, job: Job, m: Memory, content: Bytes, k: nat)
    requires Tiles(h, job.chunks, content) && RightMemory(m, job, content) && k < |job.chunks|
    requires LocalReadsAgree(h, s.files, job, content)
    ensures Supply(h, s, job, m, job.chunks[k]).Some? ==> Supplied(h, s, job, m, content, k)
  {
    assert TileAt(h, job.chunks, content, k);
  }

  lemma AlignedStep(h: Hash, s: Disk, job: Job, m: Memory, content: Bytes, k: nat)
    requires Tiles(h, job.chunks, content) && job.faults == NO_FAULTS
    requires k < |job.chunks| && m.prefix <= k && Aligned(s, job, content, k) && Supplied(h, s, job, m, content, k)
    ensures var t := ChunkTrace(s, job, job.chunks[k], Slice(job.chunks[k], content));
            && Aligned(t[2], job, content, k + 1)
            && FileAt(t[2], job.path) == FileAt(s, job.path)
            && Last(LoopTrace(h, s, job, m, k)) == Last(LoopTrace(h, t[2], job, m, k + 1))
  {
    ChunkStep(h, s, job, content, k);
    var t := ChunkTrace(s, job, job.chunks[k], Slice(job.chunks[k], content));
    assert MarksUpTo(job.chunks, k)[k := MarkOf(job.chunks[k])] == MarksUpTo(job.chunks, k + 1);
    assert LoopTrace(h, s, job, m, k) == t + LoopTrace(h, t[2], job, m, k + 1);
  }

  /** The attempt committed, or stopped with marks and .part aligned short of the end. */
  ghost predicate CommittedOrAligned(e: Disk, job: Job, content: Bytes, before: Option<Bytes>) {
    || HasCommitted(e, job, content)
    || exists j :: 0 <= j < |job.chunks| && Aligned(e, job, content, j) && FileAt(e, job.path) == before
  }

  /** Rebuilding from nothing commits, or stops at a chunk that is not at hand, with marks and .part aligned. */
  lemma {:induction false} LoopAligns(h: Hash, s: Disk, job: Job, m: Memory, content: Bytes, k: nat)
    requires Tiles(h, job.chunks, content) && job.root == h(content) && job.faults == NO_FAULTS
    requires k <= |job.chunks| && m.prefix == 0 && Aligned(s, job, content, k)
    requires RightMemory(m, job, content) && LocalReadsAgree(h, s.files, job, content)
    ensures CommittedOrAligned(Last(LoopTrace(h, s, job, m, k)), job, content, FileAt(s, job.path))
    decreases |job.chunks| - k
  {
    hide RightMemory, LocalReadsAgree, CommittedOrAligned;
    if k == |job.chunks| {
      assert content[..|content|] == content;
      CommitCommits(h, s, job, content);
      ItCommitted(Last(LoopTrace(h, s, job, m, k)), job, content, FileAt(s, job.path));
    } else {
      SuppliedIsSlice(h, s, job, m, content, k);
      if Supply(h, s, job, m, job.chunks[k]).None? {
        ItAligned(FailedRow(s, job.id), job, content, k);
        assert TileAt(h, job.chunks, content, k);
      } else {
        AlignedStep(h, s, job, m, content, k);
        var t := ChunkTrace(s, job, job.chunks[k], Slice(job.chunks[k], content));
        LocalReadsSame(h, s.files, t[2].files, job, content);
        LoopAligns(h, t[2], job, m, content, k + 1);
      }
    }
  }

  /** A chunk that is not at hand ends the loop with a failed row. */
  lemma LoopStops(h: Hash, s: Disk, job: Job, m: Memory, k: nat)
    requires TempOf(job.path) in s.files && k < |job.chunks| && m.prefix <= job.chunks[k].index
    requires Supply(h, s, job, m, job.chunks[k]).None?
    ensures RowOf(Last(LoopTrace(h, s, job, m, k)), job.id).state == Failed
  {
    hide Supply;
  }

  /** Rebuilding from nothing commits only if every chunk is at hand. */
  lemma {:induction false} LoopNeedsAll(h: Hash, s: Disk, job: Job, m: Memory, content: Bytes, k: nat)
    requires Tiles(h, job.chunks, content) && job.faults == NO_FAULTS
    requires k <= |job.chunks| && m.prefix <= k && Aligned(s, job, content, k)
    requires RightMemory(m, job, content) && LocalReadsAgree(h, s.files, job, content)
    requires !AllSupplied(h, s, job, m, content, k)
    ensures RowOf(Last(LoopTrace(h, s, job, m, k)), job.id).state == Failed
    decreases |job.chunks| - k
  {
    assert TempOf(job.path) in s.files;
    hide RightMemory, LocalReadsAgree, Tiles, Aligned, LoopTrace, ChunkTrace, Supply, Supplied, Trace;
    SuppliedIsSlice(h, s, job, m, content, k);
    var c := job.chunks[k];
    IndexIsPosition(h, job.chunks, content, k);
    if Supply(h, s, job, m, c).None? {
      LoopStops(h, s, job, m, k);
    } else {
      assert InFile(c, content) by { IsInFile(h, s, job, m, content, k); }
      AlignedStep(h, s, job, m, content, k);
      var t := ChunkTrace(s, job, c, Slice(c, content))[2];
      LocalReadsSame(h, s.files, t.files, job, content);
      if AllSupplied(h, t, job, m, content, k + 1) {
        SuppliedHereToo(h, s, t, job, m, content, k);
      } else {
        LoopNeedsAll(h, t, job, m, content, k + 1);
      }
    }
  }

  lemma IsInFile(h: Hash, s: Disk, job: Job, m: Memory, content: Bytes, k: nat)
    requires k < |job.chunks| && Supplied(h, s, job, m, content, k)
    ensures InFile(job.chunks[k], content)
  {
  }

  lemma IndexIsPosition(h: Hash, chunks: seq<ChunkEntry>, content: Bytes, k: nat)
    requires Tiles(h, chunks, content) && k < |chunks|
    ensures chunks[k].index == k
  {
    assert TileAt(h, chunks, content, k);
  }

  lemma SuppliedHereToo(h: Hash, s: Disk, t: Disk, job: Job, m: Memory, content: Bytes, k: nat)
    requires k < |job.chunks| && Supplied(h, s, job, m, content, k) && AllSupplied(h, t, job, m, content, k + 1)
    requires FileAt(t, job.path) == FileAt(s, job.path)
    ensures AllSupplied(h, s, job, m, content, k)
  {
    forall j | k <= j < |job.chunks|
      ensures Supplied(h, s, job, m, content, j)
    {
      SupplySame(h, s, t, job, m, job.chunks[j]);
      assert j > k ==> Supplied(h, t, job, m, content, j);
    }
  }

  lemma ItCommitted(e: Disk, job: Job, content: Bytes, before: Option<Bytes>)
    requires HasCommitted(e, job, content)
    ensures CommittedOrAligned(e, job, content, before)
  {
  }

  lemma ItAligned(e: Disk, job: Job, content: Bytes, j: nat)
    requires j < |job.chunks| && Aligned(e, job, content, j)
    ensures CommittedOrAligned(e, job, content, FileAt(e, job.path))
  {
  }

  /** The .part has the length of the first k chunks, but differs from the version within the first p. */
  ghost predicate Wrong(s: Disk, job: Job, content: Bytes, p: nat, k: nat)
    requires p <= k <= |job.chunks|
  {
    var temp := TempOf(job.path);
    && temp in s.files && |s.files[temp]| == SizeOf(job.chunks, k)
    && SizeOf(job.chunks, p) <= |content| && SizeOf(job.chunks, p) <= SizeOf(job.chunks, k)
    && s.files[temp][..SizeOf(job.chunks, p)] != content[..SizeOf(job.chunks, p)]
  }

  ghost predicate MarkedTo(s: Disk, job: Job, k: nat)
    requires k <= |job.chunks|
  {
    forall i | 0 <= i < k :: MarkMatches(MarksOf(s, job.id), job.chunks[i])
  }

  lemma WrongStep(h: Hash, s: Disk, job: Job, m: Memory, content: Bytes, p: nat, k: nat)
    requires Tiles(h, job.chunks, content) && job.faults == NO_FAULTS
    requires p <= k < |job.chunks| && m.prefix <= k && Wrong(s, job, content, p, k) && MarkedTo(s, job, k)
    requires Supplied(h, s, job, m, content, k)
    ensures var t := ChunkTrace(s, job, job.chunks[k], Slice(job.chunks[k], content));
            && Wrong(t[2], job, content, p, k + 1) && MarkedTo(t[2], job, k + 1)
            && FileAt(t[2], job.path) == FileAt(s, job.path)
            && LoopTrace(h, s, job, m, k) == t + LoopTrace(h, t[2], job, m, k + 1)
  {
    hide Supply, LoopTrace;
    assert TileAt(h, job.chunks, content, k);
    var t := ChunkTrace(s, job, job.chunks[k], Slice(job.chunks[k], content));
    ChunkTraceFiles(s, job, job.chunks[k], Slice(job.chunks[k], content));
    var q, part, part' := SizeOf(job.chunks, p), s.files[TempOf(job.path)], t[2].files[TempOf(job.path)];
    assert part'[..q] == part[..q];
    forall i | 0 <= i < k + 1
      ensures MarkMatches(MarksOf(t[2], job.id), job.chunks[i])
    {
      assert TileAt(h, job.chunks, content, i);
    }
    assert LoopTrace(h, s, job, m, k) == t + LoopTrace(h, t[2], job, m, k + 1) by {
      LoopUnfolds(h, s, job, m, content, k);
    }
  }

  /** A wrong .part is completed, rejected by the hash and removed; the marks stay. */
  lemma {:induction false} LoopRejects(
    h: Hash, s: Disk, job: Job, m: Memory, content: Bytes, p: nat, k: nat, parts: set<Bytes>)
    requires Tiles(h, job.chunks, content) && job.root == h(content) && job.faults == NO_FAULTS
    requires p <= k <= |job.chunks| && m.prefix <= k && Wrong(s, job, content, p, k) && MarkedTo(s, job, k)
    requires AllSupplied(h, s, job, m, content, k)
    requires s.files[TempOf(job.path)] in parts && NoCollision(h, parts, content)
    requires PartContents(LoopTrace(h, s, job, m, k), job.path) <= parts
    ensures var e := Last(LoopTrace(h, s, job, m, k));
            && TempOf(job.path) !in e.files && FileAt(e, job.path) == FileAt(s, job.path)
            && MarkedTo(e, job, |job.chunks|) && RowOf(e, job.id).state == Failed
    decreases |job.chunks| - k
  {
    if k == |job.chunks| {
      var part := s.files[TempOf(job.path)];
      assert part != content;
      ChunkFreePath(job.path);
    } else {
      hide Tiles, NoCollision, Wrong, MarkedTo;
      assert Supplied(h, s, job, m, content, k);
      WrongStep(h, s, job, m, content, p, k);
      var t := ChunkTrace(s, job, job.chunks[k], Slice(job.chunks[k], content));
      var rest := LoopTrace(h, t[2], job, m, k + 1);
      AllSuppliedStep(h, s, t[2], job, m, content, k);
      assert t[2] in t + rest && forall u | u in rest :: u in t + rest;
      assert t[2].files[TempOf(job.path)] in PartContents(t + rest, job.path);
      LoopRejects(h, t[2], job, m, content, p, k + 1, parts);
    }
  }

  // ---------- The ranking ----------

  /**
   3: the .part has the marked length and the wrong content. 2: it has not the marked length.
   1: nothing is marked, or the .part is the marked prefix of the version.
   */
  function Rank(s: Disk, job: Job, content: Bytes): (r: nat)
    ensures 1 <= r <= 3
  {
    var p, temp := MarkedPrefix(s, job), TempOf(job.path);
    if p == 0 then 1
    else if !LengthFits(s, job, p) then 2
    else if temp in s.files && s.files[temp] <= content then 1
    else 3
  }

  /** Where the loop of an attempt starts. */
  ghost predicate LoopFrom(h: Hash, s: Disk, job: Job, o: Disk, m: Memory) {
    && TempOf(job.path) in o.files && m.prefix <= |job.chunks|
    && After(h, s, job) == Last(LoopTrace(h, o, job, m, m.prefix))
    && FileAt(o, job.path) == FileAt(s, job.path)
    && o.files[TempOf(job.path)] in PartContents(Trace(h, s, job), job.path)
    && PartContents(LoopTrace(h, o, job, m, m.prefix), job.path) <= PartContents(Trace(h, s, job), job.path)
  }

  lemma OpenKeepsFile(s: Disk, job: Job, prefix: nat)
    ensures FileAt(Last(OpenTrace(s, job, prefix)), job.path) == FileAt(s, job.path)
  {
    var prep := OpenTrace(s, job, prefix);
    OpenKeepsOthers(s, job, prefix);
    hide OpenTrace;
    assert Last(prep) in prep;
    ChunkFreePath(job.path);
    OthersFix(s, Last(prep), job.path, job.path);
  }

  lemma AttemptLoops(h: Hash, s: Disk, job: Job, content: Bytes)
    requires Stable(h, s.files, job, content)
    ensures var s1 := Start(s, job);
            && Received(s1, job).Some?
            && LoopFrom(h, s, job, Last(OpenTrace(s1, job, MarkedPrefix(s1, job))), MemoryOf(s1, job))
  {
    var s1 := Start(s, job);
    AnswerArrives(h, s1, job, content);
    StableMeans(h, s.files, job, content);
    var prep, m := OpenTrace(s1, job, MarkedPrefix(s1, job)), MemoryOf(s1, job);
    LoopSkips(h, Last(prep), job, m, content, 0);
    OpenKeepsFile(s1, job, MarkedPrefix(s1, job));
    assert m.prefix <= |job.chunks|;
    hide Stable, LoopTrace, OpenTrace, Received, MarkedPrefix, MemoryOf, Tiles;
    PartsOf(s1, prep, LoopTrace(h, Last(prep), job, m, m.prefix), job.path);
  }

  lemma PartsOf(s: Disk, prep: seq<Disk>, rest: seq<Disk>, path: Path)
    requires |prep| > 0 && |rest| > 0 && TempOf(path) in Last(prep).files
    ensures var t := [s] + (prep + rest);
            && Last(t) == Last(rest) && Last(prep).files[TempOf(path)] in PartContents(t, path)
            && PartContents(rest, path) <= PartContents(t, path)
  {
    var t := [s] + (prep + rest);
    assert Last(prep) in t && forall u | u in rest :: u in t;
  }

  /** At the start of the loop every chunk behind the marked prefix is at hand. */
  lemma LoopIsSupplied(h: Hash, s: Disk, job: Job, content: Bytes, o: Disk, p: nat)
    requires Stable(h, s.files, job, content) && FileAt(o, job.path) == FileAt(s, job.path)
    requires MarkedPrefix(s, job) <= p
    ensures Received(s, job).Some? && AllSupplied(h, o, job, MemoryOf(s, job), content, p)
  {
    AnswerArrives(h, s, job, content);
    forall j | p <= j < |job.chunks|
      ensures Supplied(h, o, job, MemoryOf(s, job), content, j)
    {
      SuppliedBehindPrefix(h, s, job, content, j);
      SupplySame(h, s, o, job, MemoryOf(s, job), job.chunks[j]);
    }
  }

  lemma RankOneCommits(h: Hash, s: Disk, job: Job, content: Bytes)
    requires Stable(h, s.files, job, content) && Rank(s, job, content) == 1
    ensures HasCommitted(After(h, s, job), job, content)
  {
    hide Stable, Trace, LoopTrace, Supplied, Received;
    AttemptLoops(h, s, job, content);
    var s1 := Start(s, job);
    var p := MarkedPrefix(s1, job);
    var o, m := Last(OpenTrace(s1, job, p)), MemoryOf(s1, job);
    StableMeans(h, s.files, job, content);
    PrefixBytesIsOffset(h, job.chunks, content, p);
    TilesBounds(h, job.chunks, content, p);
    TilesBounds(h, job.chunks, content, 0);
    LoopIsSupplied(h, s1, job, content, o, p);
    assert m.prefix == p;
    assert Rebuilt(o, job, content, p);
    LoopCommits(h, o, job, m, content, p);
  }

  lemma StableMeans(h: Hash, files: map<Path, Bytes>, job: Job, content: Bytes)
    requires Stable(h, files, job, content)
    ensures Tiles(h, job.chunks, content) && job.root == h(content) && job.faults == NO_FAULTS
    ensures LocalReadsAgree(h, files, job, content)
  {
  }

  lemma AlignedIsRankOne(h: Hash, e: Disk, job: Job, content: Bytes, j: nat)
    requires Tiles(h, job.chunks, content) && j < |job.chunks| && Aligned(e, job, content, j)
    ensures Rank(e, job, content) == 1
  {
    var p := MarkedPrefix(e, job);
    assert TileAt(h, job.chunks, content, j);
    forall i | 0 <= i < j
      ensures MarkMatches(MarksOf(e, job.id), job.chunks[i])
    {
      assert TileAt(h, job.chunks, content, i);
    }
    assert p == j;
    PrefixBytesIsOffset(h, job.chunks, content, j);
  }

  /** Every chunk of the marked prefix is in the local file too. */
  ghost predicate PrefixIsLocal(h: Hash, s: Disk, job: Job) {
    forall i | 0 <= i < MarkedPrefix(s, job) :: LocalHas(h, s.files, job, i)
  }

  /** A chunk in front of the marked prefix was not asked for: it is at hand exactly if the local file has it. */
  lemma SuppliedInFront(h: Hash, s: Disk, job: Job, content: Bytes, i: nat)
    requires Stable(h, s.files, job, content) && i < MarkedPrefix(s, job)
    ensures Received(s, job).Some?
    ensures Supplied(h, s, job, MemoryOf(s, job), content, i) <==> LocalHas(h, s.files, job, i)
  {
    AnswerArrives(h, s, job, content);
    assert TileAt(h, job.chunks, content, i);
    assert i !in Indexes(Request(s, job));
  }

  /** With the prefix thrown away, everything is at hand exactly if the local file has what stood in it. */
  lemma AllSuppliedIff(h: Hash, s: Disk, job: Job, content: Bytes, o: Disk)
    requires Stable(h, s.files, job, content) && FileAt(o, job.path) == FileAt(s, job.path)
    ensures Received(s, job).Some?
    ensures AllSupplied(h, o, job, MemoryOf(s, job), content, 0) <==> PrefixIsLocal(h, s, job)
  {
    hide Stable, LocalHas, Supplied, MemoryOf;
    var p := MarkedPrefix(s, job);
    LoopIsSupplied(h, s, job, content, o, p);
    forall j | 0 <= j < p
      ensures Supplied(h, o, job, MemoryOf(s, job), content, j) <==> LocalHas(h, s.files, job, j)
    {
      SuppliedInFront(h, s, job, content, j);
      SuppliedSame(h, s, o, job, MemoryOf(s, job), content, j);
    }
  }

  lemma SuppliedSame(h: Hash, s: Disk, t: Disk, job: Job, m: Memory, content: Bytes, k: nat)
    requires k < |job.chunks| && FileAt(t, job.path) == FileAt(s, job.path)
    ensures Supplied(h, s, job, m, content, k) <==> Supplied(h, t, job, m, content, k)
  {
    SupplySame(h, s, t, job, m, job.chunks[k]);
  }

  /**
   From rank 2 the attempt starts over without asking again for the marked prefix: it commits if and only if the local
   file has every chunk of that prefix, and otherwise fails with marks and .part aligned.
   */
  lemma RankTwoAligns(h: Hash, s: Disk, job: Job, content: Bytes)
    requires Stable(h, s.files, job, content) && Rank(s, job, content) == 2
    ensures var e := After(h, s, job);
            && (HasCommitted(e, job, content) <==> PrefixIsLocal(h, s, job))
            && (!HasCommitted(e, job, content) ==>
                  && Rank(e, job, content) == 1 && FileAt(e, job.path) == FileAt(s, job.path)
                  && RowOf(e, job.id).state == Failed)
  {
    hide Stable, Trace, LoopTrace, Supplied, Received, LocalReadsAgree, RightMemory, PrefixIsLocal;
    AttemptLoops(h, s, job, content);
    var s1 := Start(s, job);
    var p := MarkedPrefix(s1, job);
    var o, m := Last(OpenTrace(s1, job, p)), MemoryOf(s1, job);
    StableMeans(h, s.files, job, content);
    AnswerArrives(h, s1, job, content);
    LocalReadsSame(h, s.files, o.files, job, content);
    assert m.prefix == 0 && o.files[TempOf(job.path)] == [] && MarksOf(o, job.id) == map[];
    assert Aligned(o, job, content, 0);
    AllSuppliedIff(h, s1, job, content, o);
    SamePrefixLocal(h, s, s1, job);
    var e := After(h, s, job);
    if PrefixIsLocal(h, s, job) {
      LoopCommits(h, o, job, m, content, 0);
    } else {
      LoopNeedsAll(h, o, job, m, content, 0);
      LoopAligns(h, o, job, m, content, 0);
      var j :| 0 <= j < |job.chunks| && Aligned(e, job, content, j) && FileAt(e, job.path) == FileAt(o, job.path);
      AlignedIsRankOne(h, e, job, content, j);
    }
  }

  lemma SamePrefixLocal(h: Hash, s: Disk, t: Disk, job: Job)
    requires t.files == s.files && MarksOf(t, job.id) == MarksOf(s, job.id)
    ensures PrefixIsLocal(h, t, job) <==> PrefixIsLocal(h, s, job)
  {
  }

  lemma RankThreeRejects(h: Hash, s: Disk, job: Job, content: Bytes)
    requires Stable(h, s.files, job, content) && Rank(s, job, content) == 3
    requires NoCollision(h, PartContents(Trace(h, s, job), job.path), content)
    ensures var e := After(h, s, job);
            && Rank(e, job, content) == 2 && FileAt(e, job.path) == FileAt(s, job.path)
            && MarkedPrefix(e, job) == |job.chunks| && RowOf(e, job.id).state == Failed
  {
    hide Stable, Trace, LoopTrace, Supplied, Received, LocalReadsAgree, NoCollision;
    AttemptLoops(h, s, job, content);
    var s1 := Start(s, job);
    var p := MarkedPrefix(s1, job);
    var o, m := Last(OpenTrace(s1, job, p)), MemoryOf(s1, job);
    StableMeans(h, s.files, job, content);
    PrefixBytesIsOffset(h, job.chunks, content, p);
    TilesBounds(h, job.chunks, content, p);
    LoopIsSupplied(h, s1, job, content, o, p);
    assert m.prefix == p && o.files[TempOf(job.path)] == s.files[TempOf(job.path)];
    assert Wrong(o, job, content, p, p) && MarkedTo(o, job, p);
    LoopRejects(h, o, job, m, content, p, p, PartContents(Trace(h, s, job), job.path));
    var e, n := After(h, s, job), |job.chunks|;
    assert MarkedPrefix(e, job) == n;
    PrefixBytesIsOffset(h, job.chunks, content, n);
    TilesBounds(h, job.chunks, content, n);
  }

  // ---------- The theorem ----------

  /** The disk after n attempts that were not interrupted. */
  function Attempts(h: Hash, s: Disk, job: Job, n: nat): Disk {
    if n == 0 then s else After(h, Attempts(h, s, job, n - 1), job)
  }

  lemma StableSame(h: Hash, f: map<Path, Bytes>, g: map<Path, Bytes>, job: Job, content: Bytes)
    requires Stable(h, f, job, content)
    requires (job.path in f <==> job.path in g) && (job.path in f ==> f[job.path] == g[job.path])
    ensures Stable(h, g, job, content)
  {
    LocalReadsSame(h, f, g, job, content);
    forall i | 0 <= i < |job.chunks| && job.chunks[i] !in job.missing
      ensures LocalHas(h, g, job, i)
    {
      assert LocalHas(h, f, job, i);
    }
  }

  /** An attempt commits, or the next one starts from a smaller rank. */
  lemma Progress(h: Hash, s: Disk, job: Job, content: Bytes)
    requires Stable(h, s.files, job, content)
    requires NoCollision(h, PartContents(Trace(h, s, job), job.path), content)
    ensures var e := After(h, s, job);
            || HasCommitted(e, job, content)
            || (Rank(e, job, content) < Rank(s, job, content) && Stable(h, e.files, job, content))
  {
    var e := After(h, s, job);
    if Rank(s, job, content) == 1 {
      RankOneCommits(h, s, job, content);
    } else {
      if Rank(s, job, content) == 2 {
        RankTwoAligns(h, s, job, content);
      } else {
        RankThreeRejects(h, s, job, content);
      }
      hide Stable;
      if !HasCommitted(e, job, content) {
        assert FileAt(e, job.path) == FileAt(s, job.path);
        StableSame(h, s.files, e.files, job, content);
      }
    }
  }

  /** No attempt among the first n meets a .part that collides with the version. */
  ghost predicate CollisionFree(h: Hash, s: Disk, job: Job, content: Bytes, n: nat) {
    forall i | 0 <= i < n ::
      NoCollision(h, PartContents(Trace(h, Attempts(h, s, job, i), job), job.path), content)
  }

  lemma {:induction false} CommitsWithin(h: Hash, s: Disk, job: Job, content: Bytes, i: nat, n: nat)
    requires Stable(h, Attempts(h, s, job, i).files, job, content) && CollisionFree(h, s, job, content, n)
    requires i + Rank(Attempts(h, s, job, i), job, content) <= n
    ensures exists j :: i < j <= n && HasCommitted(Attempts(h, s, job, j), job, content)
    decreases n - i
  {
    hide Stable, Rank, NoCollision, HasCommitted;
    var u := Attempts(h, s, job, i);
    assert NoCollision(h, PartContents(Trace(h, u, job), job.path), content);
    Progress(h, u, job, content);
    assert Attempts(h, s, job, i + 1) == After(h, u, job);
    if !HasCommitted(Attempts(h, s, job, i + 1), job, content) {
      CommitsWithin(h, s, job, content, i + 1, n);
    }
  }

  /** From any marks and any .part, one of the first three uninterrupted attempts leaves the requested version in place. */
  lemma ConvergesInThree(h: Hash, s: Disk, job: Job, content: Bytes)
    requires Stable(h, s.files, job, content) && CollisionFree(h, s, job, content, 3)
    ensures exists j :: 1 <= j <= Rank(s, job, content) <= 3 && HasCommitted(Attempts(h, s, job, j), job, content)
  {
    CommitsWithin(h, s, job, content, 0, Rank(s, job, content));
  }

  /**
   One attempt with stable files commits if and only if its rank is 1, or 2 with the marked prefix in the local file;
   then the version is in place, and otherwise the file stays and the next attempt starts from a smaller rank.
   */
  lemma CommitsExactly(h: Hash, s: Disk, job: Job, content: Bytes)
    requires Stable(h, s.files, job, content)
    requires NoCollision(h, PartContents(Trace(h, s, job), job.path), content)
    ensures var e, rank := After(h, s, job), Rank(s, job, content);
            && (HasCommitted(e, job, content) <==> rank == 1 || (rank == 2 && PrefixIsLocal(h, s, job)))
            && (Commits(h, s, job) <==> HasCommitted(e, job, content))
            && (!Commits(h, s, job) ==> Rank(e, job, content) < rank && FileAt(e, job.path) == FileAt(s, job.path))
  {
    hide Stable, PrefixIsLocal, NoCollision, Trace, Rank;
    if Rank(s, job, content) == 1 {
      RankOneCommits(h, s, job, content);
    } else if Rank(s, job, content) == 2 {
      RankTwoAligns(h, s, job, content);
    } else {
      RankThreeRejects(h, s, job, content);
    }
  }

  /**
   The bound is reached: over a wrong .part of the marked length the first attempt fails, and the third is needed if
   and only if some chunk of the version is not in the local file.
   */
  lemma ThreeAreNeeded(h: Hash, s: Disk, job: Job, content: Bytes)
    requires Stable(h, s.files, job, content) && CollisionFree(h, s, job, content, 3)
    requires Rank(s, job, content) == 3
    ensures !HasCommitted(Attempts(h, s, job, 1), job, content)
    ensures HasCommitted(Attempts(h, s, job, 2), job, content)
       <==> forall i | 0 <= i < |job.chunks| :: LocalHas(h, s.files, job, i)
    ensures !HasCommitted(Attempts(h, s, job, 2), job, content) ==> HasCommitted(Attempts(h, s, job, 3), job, content)
  {
    hide Stable, Trace, LoopTrace, After, Rank, NoCollision;
    var s1, s2 := After(h, s, job), After(h, After(h, s, job), job);
    assert Attempts(h, s, job, 0) == s && Attempts(h, s, job, 1) == s1 && Attempts(h, s, job, 2) == s2;
    assert NoCollision(h, PartContents(Trace(h, Attempts(h, s, job, 0), job), job.path), content);
    RankThreeRejects(h, s, job, content);
    StableSame(h, s.files, s1.files, job, content);
    RankTwoAligns(h, s1, job, content);
    LocalHasSame(h, s.files, s1.files, job);
    ConvergesInThree(h, s, job, content);
  }

  lemma LocalHasSame(h: Hash, f: map<Path, Bytes>, g: map<Path, Bytes>, job: Job)
    requires (job.path in f <==> job.path in g) && (job.path in f ==> f[job.path] == g[job.path])
    ensures forall i | 0 <= i < |job.chunks| :: LocalHas(h, f, job, i) <==> LocalHas(h, g, job, i)
  {
  }
}
