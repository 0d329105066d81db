/** The resume invariant: a .part as long as the marked prefix is that prefix of the remote file. */
module ResumeInvariant {
  import opened Base
  import opened Chunks
  import opened Attempt
  import opened CommitSafety

  /** Reading chunk i of the version from any local copy gives the version's bytes or fails (no collision with it). */
  ghost predicate LocalReadsAgree(h: Hash, files: map<Path, Bytes>, job: Job, content: Bytes) {
    forall i | 0 <= i < |job.chunks| && InFile(job.chunks[i], content) ::
      var r := ReadAndVerify(h, files, job.path, job.chunks[i]);
      r.Some? ==> r.value == Slice(job.chunks[i], content)
  }

  /** Every frame the server sends carries the bytes of the chunk it names. */
  ghost predicate HonestServer(job: Job, content: Bytes) {
    forall request, r {:trigger r in job.serve(request)} | r in job.serve(request) && r.Data? && r.index < |job.chunks| ::
      InFile(job.chunks[r.index], content) && r.bytes == Slice(job.chunks[r.index], content)
  }

  /** The job asks for this version of the file, of an honest server. */
  ghost predicate JobFor(h: Hash, job: Job, content: Bytes) {
    Tiles(h, job.chunks, content) && job.root == h(content) && HonestServer(job, content)
  }

  /** The .part, where there is one, holds a first part of the version. */
  predicate PartIsPrefix(s: Disk, path: Path, content: Bytes) {
    TempOf(path) in s.files ==> s.files[TempOf(path)] <= content
  }

  /** What holds at every persistent state: once some prefix of the version is marked, the .part is a first part of it. */
  ghost predicate Inv(s: Disk, job: Job, content: Bytes) {
    MarkedPrefix(s, job) > 0 ==> PartIsPrefix(s, job.path, content)
  }

  lemma {:induction false} CountedPrefix(h: Hash, chunks: seq<ChunkEntry>, content: Bytes, prefix: nat, k: nat)
    requires Tiles(h, chunks, content) && k <= prefix <= |chunks|
    ensures SizeOf(chunks, k) + PrefixBytes(chunks, prefix, k) == SizeOf(chunks, prefix)
    decreases prefix - k
  {
    if k < |chunks| {
      assert TileAt(h, chunks, content, k);
    }
    if k < prefix {
      CountedPrefix(h, chunks, content, prefix, k + 1);
    }
  }

  /** ComputePrefixBytes of the marked prefix is the offset of the first unmarked chunk. */
  lemma PrefixBytesIsOffset(h: Hash, chunks: seq<ChunkEntry>, content: Bytes, prefix: nat)
    requires Tiles(h, chunks, content) && prefix <= |chunks|
    ensures PrefixBytes(chunks, prefix, 0) == SizeOf(chunks, prefix) <= |content|
    ensures prefix < |chunks| ==> PrefixBytes(chunks, prefix, 0) == chunks[prefix].offset
  {
    CountedPrefix(h, chunks, content, prefix, 0);
    TilesBounds(h, chunks, content, prefix);
    assert prefix < |chunks| ==> TileAt(h, chunks, content, prefix);
  }

  /** What the client has in memory is right for the version. */
  ghost predicate RightMemory(m: Memory, job: Job, content: Bytes) {
    forall i | i in m.received && i < |job.chunks| ::
      InFile(job.chunks[i], content) && m.received[i] == Slice(job.chunks[i], content)
  }

  lemma MemoryIsRight(h: Hash, s: Disk, job: Job, content: Bytes)
    requires JobFor(h, job, content) && Received(s, job).Some?
    ensures RightMemory(MemoryOf(s, job), job, content)
  {
    var request := Request(s, job);
    var replies := if request == [] then [] else job.serve(request);
    CollectedFrom(replies, |request|);
    var m := MemoryOf(s, job);
    assert m.received == Collect(replies, |request|).value;
    assert request == [] ==> m.received == map[];
    forall i | i in m.received && i < |job.chunks|
      ensures InFile(job.chunks[i], content) && m.received[i] == Slice(job.chunks[i], content)
    {
      var r := Data(i, m.received[i]);
      assert r in replies && r in job.serve(request);
    }
  }

  /** What is supplied for chunk k carries on the version where the first k chunks end. */
  lemma SupplyContinues(h: Hash, s: Disk, job: Job, m: Memory, content: Bytes, k: nat)
    requires Tiles(h, job.chunks, content) && RightMemory(m, job, content) && k < |job.chunks|
    requires LocalReadsAgree(h, s.files, job, content)
    ensures SizeOf(job.chunks, k) <= SizeOf(job.chunks, k + 1) <= |content| && job.chunks[k].index == k
    ensures var r := Supply(h, s, job, m, job.chunks[k]);
            r.Some? ==> content[..SizeOf(job.chunks, k)] + r.value == content[..SizeOf(job.chunks, k + 1)]
  {
    assert TileAt(h, job.chunks, content, k);
    TilesNext(h, job.chunks, content, k);
  }

  lemma ChunkTraceFiles(s: Disk, job: Job, c: ChunkEntry, bytes: Bytes)
    requires TempOf(job.path) in s.files
    ensures var temp := TempOf(job.path);
            forall t | t in ChunkTrace(s, job, c, bytes) :: t.files == s.files[temp := s.files[temp] + bytes]
    ensures job.path != TempOf(job.path)
  {
    assert |TempOf(job.path)| == |job.path| + 5;
  }

  lemma LoopTurn(h: Hash, s: Disk, job: Job, m: Memory, k: nat, bytes: Bytes)
    requires TempOf(job.path) in s.files && k < |job.chunks| && m.prefix <= job.chunks[k].index
    requires Supply(h, s, job, m, job.chunks[k]) == Some(bytes) && !WriteFails(job, k, bytes)
    ensures var t := ChunkTrace(s, job, job.chunks[k], bytes);
            LoopTrace(h, s, job, m, k) == t + LoopTrace(h, t[2], job, m, k + 1)
  {
    hide Supply;
  }

  /** The ways the loop ends leave a first part of the version a first part. */
  lemma LoopEndKeepsPrefix(h: Hash, s: Disk, job: Job, m: Memory, content: Bytes, k: nat)
    requires TempOf(job.path) in s.files && k <= |job.chunks| && s.files[TempOf(job.path)] <= content
    requires k < |job.chunks| ==>
               && m.prefix <= job.chunks[k].index
               && var bytes := Supply(h, s, job, m, job.chunks[k]);
                  bytes.Some? ==>
                    WriteFails(job, k, bytes.value) && s.files[TempOf(job.path)] + bytes.value <= content
    ensures forall t | t in LoopTrace(h, s, job, m, k) :: PartIsPrefix(t, job.path, content)
  {
    hide Supply;
    if k < |job.chunks| {
      var part, bytes := s.files[TempOf(job.path)], Supply(h, s, job, m, job.chunks[k]);
      if bytes.Some? {
        assert part + bytes.value[..job.faults.accepted] <= part + bytes.value;
      }
    }
  }

  /** From a .part that is the first k chunks, the loop keeps the .part a first part of the version. */
  lemma {:induction false} LoopKeepsPrefix(h: Hash, s: Disk, job: Job, m: Memory, content: Bytes, k: nat)
    requires TempOf(job.path) in s.files && k <= |job.chunks| && JobFor(h, job, content)
    requires RightMemory(m, job, content) && m.prefix <= k
    requires LocalReadsAgree(h, s.files, job, content)
    requires SizeOf(job.chunks, k) <= |content| && s.files[TempOf(job.path)] == content[..SizeOf(job.chunks, k)]
    ensures forall t | t in LoopTrace(h, s, job, m, k) :: PartIsPrefix(t, job.path, content)
    decreases |job.chunks| - k
  {
    hide Tiles, LocalReadsAgree, RightMemory, HonestServer, LoopTrace, ChunkTrace, Supply;
    if k < |job.chunks| {
      var c, part := job.chunks[k], s.files[TempOf(job.path)];
      SupplyContinues(h, s, job, m, content, k);
      var bytes := Supply(h, s, job, m, c);
      if bytes.Some? && !WriteFails(job, k, bytes.value) {
        LoopTurn(h, s, job, m, k, bytes.value);
        var t := ChunkTrace(s, job, c, bytes.value);
        ChunkTraceFiles(s, job, c, bytes.value);
        LocalReadsSame(h, s.files, t[2].files, job, content);
        LoopKeepsPrefix(h, t[2], job, m, content, k + 1);
      } else {
        assert bytes.Some? ==> part + bytes.value <= content;
        LoopEndKeepsPrefix(h, s, job, m, content, k);
      }
    } else {
      LoopEndKeepsPrefix(h, s, job, m, content, k);
    }
  }

  lemma LocalReadsSame(h: Hash, f: map<Path, Bytes>, g: map<Path, Bytes>, job: Job, content: Bytes)
    requires LocalReadsAgree(h, f, job, content)
    requires (job.path in f <==> job.path in g) && (job.path in f ==> f[job.path] == g[job.path])
    ensures LocalReadsAgree(h, g, job, content)
  {
    forall i | 0 <= i < |job.chunks| && InFile(job.chunks[i], content)
      ensures ReadAndVerify(h, g, job.path, job.chunks[i]) == ReadAndVerify(h, f, job.path, job.chunks[i])
    {
    }
  }

  /** Chunks in front of the prefix are skipped. */
  lemma {:induction false} LoopSkips(h: Hash, s: Disk, job: Job, m: Memory, content: Bytes, k: nat)
    requires TempOf(job.path) in s.files && k <= m.prefix <= |job.chunks| && Tiles(h, job.chunks, content)
    ensures LoopTrace(h, s, job, m, k) == LoopTrace(h, s, job, m, m.prefix)
    decreases m.prefix - k
  {
    if k < m.prefix {
      assert TileAt(h, job.chunks, content, k);
      LoopSkips(h, s, job, m, content, k + 1);
    }
  }

  lemma ClearedHasNoPrefix(s: Disk, job: Job)
    requires MarksOf(s, job.id) == map[]
    ensures MarkedPrefix(s, job) == 0
  {
  }

  /** Opening the writer keeps the marks, or clears those of the task. */
  lemma OpenTables(s: Disk, job: Job, prefix: nat)
    ensures forall t | t in OpenTrace(s, job, prefix) :: t.marks == s.marks || t.marks == s.marks[job.id := map[]]
  {
    hide LengthFits, ResetTrace;
    ResetTables(s, job);
    ResetTables(WithoutFile(s, TempOf(job.path)), job);
    ResetTables(WithoutFile(WithFile(s, TempOf(job.path), []), TempOf(job.path)), job);
  }

  lemma ResetTables(s: Disk, job: Job)
    ensures forall t | t in ResetTrace(s, job) :: t.marks == s.marks[job.id := map[]]
  {
  }

  lemma OpenMarks(s: Disk, job: Job, prefix: nat)
    ensures forall t | t in OpenTrace(s, job, prefix) ::
              MarksOf(t, job.id) == MarksOf(s, job.id) || MarksOf(t, job.id) == map[]
  {
    OpenTables(s, job, prefix);
    hide OpenTrace;
  }

  lemma OpenKeepsInv(h: Hash, s: Disk, job: Job, content: Bytes)
    requires Inv(s, job, content)
    ensures forall t | t in OpenTrace(s, job, MarkedPrefix(s, job)) :: Inv(t, job, content)
  {
    var prefix := MarkedPrefix(s, job);
    OpenMarks(s, job, prefix);
    forall t | t in OpenTrace(s, job, prefix)
      ensures Inv(t, job, content)
    {
      if MarksOf(t, job.id) == map[] {
        ClearedHasNoPrefix(t, job);
      }
    }
  }

  /** The loop starts from a .part that is exactly the prefix it skips. */
  lemma OpenFits(h: Hash, s: Disk, job: Job, content: Bytes)
    requires Tiles(h, job.chunks, content) && Inv(s, job, content)
    ensures var p := OpenPrefix(s, job, MarkedPrefix(s, job));
            && p <= |job.chunks| && SizeOf(job.chunks, p) <= |content|
            && Last(OpenTrace(s, job, MarkedPrefix(s, job))).files[TempOf(job.path)] == content[..SizeOf(job.chunks, p)]
  {
    var prefix := MarkedPrefix(s, job);
    PrefixBytesIsOffset(h, job.chunks, content, prefix);
    TilesBounds(h, job.chunks, content, prefix);
    TilesBounds(h, job.chunks, content, 0);
  }

  /** Every persistent state of an attempt for the version keeps the invariant. */
  lemma AttemptKeepsInv(h: Hash, s: Disk, job: Job, content: Bytes)
    requires JobFor(h, job, content) && LocalReadsAgree(h, s.files, job, content) && Inv(s, job, content)
    ensures forall t | t in Trace(h, s, job) :: Inv(t, job, content)
  {
    var s1 := Start(s, job);
    assert MarksOf(s1, job.id) == MarksOf(s, job.id);
    if Received(s1, job).Some? {
      var prep, m := OpenTrace(s1, job, MarkedPrefix(s1, job)), MemoryOf(s1, job);
      OpenKeepsInv(h, s1, job, content);
      OpenFits(h, s1, job, content);
      OpenKeepsOthers(s1, job, MarkedPrefix(s1, job));
      assert Others(Last(prep), job.path) == Others(s1, job.path);
      ChunkFreePath(job.path);
      assert FileAt(Last(prep), job.path) == FileAt(s1, job.path) by { OthersFix(s1, Last(prep), job.path, job.path); }
      LocalReadsSame(h, s.files, Last(prep).files, job, content);
      MemoryIsRight(h, s1, job, content);
      LoopSkips(h, Last(prep), job, m, content, 0);
      LoopKeepsPrefix(h, Last(prep), job, m, content, m.prefix);
    }
  }

  lemma ChunkFreePath(path: Path)
    ensures path != TempOf(path)
  {
    assert |TempOf(path)| == |path| + 5;
  }

  lemma OthersFix(s: Disk, t: Disk, path: Path, x: Path)
    requires Others(s, path) == Others(t, path) && x != TempOf(path)
    ensures FileAt(s, x) == FileAt(t, x)
  {
    assert x in Others(s, path) <==> x in s.files;
    assert x in Others(t, path) <==> x in t.files;
    assert x in s.files ==> s.files[x] == Others(s, path)[x];
    assert x in t.files ==> t.files[x] == Others(t, path)[x];
  }

  lemma TornKeepsInv(t0: Disk, t1: Disk, job: Job, content: Bytes, c: Disk)
    requires Torn(t0, t1, job.path, c) && Inv(t1, job, content)
    ensures Inv(c, job, content)
  {
    hide ResumePrefix;
    assert MarksOf(c, job.id) == MarksOf(t1, job.id);
  }

  /** So does whatever a crash leaves, torn appends included. */
  lemma CrashKeepsInv(h: Hash, s: Disk, job: Job, content: Bytes, c: Disk)
    requires JobFor(h, job, content) && LocalReadsAgree(h, s.files, job, content) && Inv(s, job, content)
    requires CrashLeaves(h, s, job, c)
    ensures Inv(c, job, content)
  {
    var t := Trace(h, s, job);
    AttemptKeepsInv(h, s, job, content);
    hide Trace, JobFor, LocalReadsAgree, Inv, Torn;
    if c != s && c !in t {
      var i :| 0 < i < |t| && Torn(t[i - 1], t[i], job.path, c);
      assert t[i] in t;
      TornKeepsInv(t[i - 1], t[i], job, content, c);
    }
  }

  // ---------- Attempts for other files ----------

  ghost predicate MarksKept(s: Disk, t: seq<Disk>, id: TaskId) {
    forall u | u in t :: MarksOf(u, id) == MarksOf(s, id)
  }

  lemma MarksKeptJoin(s: Disk, t: seq<Disk>, mid: Disk, u: seq<Disk>, id: TaskId)
    requires MarksKept(s, t, id) && MarksOf(mid, id) == MarksOf(s, id) && MarksKept(mid, u, id)
    ensures MarksKept(s, t + u, id)
  {
  }

  lemma ChunkKeepsMarks(s: Disk, job: Job, c: ChunkEntry, bytes: Bytes, id: TaskId)
    requires TempOf(job.path) in s.files && id != job.id
    ensures MarksKept(s, ChunkTrace(s, job, c, bytes), id)
  {
  }

  lemma OpenKeepsMarks(s: Disk, job: Job, prefix: nat, id: TaskId)
    requires id != job.id
    ensures MarksKept(s, OpenTrace(s, job, prefix), id)
  {
    OpenTables(s, job, prefix);
    hide OpenTrace;
  }

  lemma {:induction false} LoopKeepsMarks(h: Hash, s: Disk, job: Job, m: Memory, k: nat, id: TaskId)
    requires TempOf(job.path) in s.files && k <= |job.chunks| && id != job.id
    ensures MarksKept(s, LoopTrace(h, s, job, m, k), id)
    decreases |job.chunks| - k
  {
    if k < |job.chunks| {
      var c := job.chunks[k];
      if c.index < m.prefix {
        LoopKeepsMarks(h, s, job, m, k + 1, id);
      } else {
        var bytes := Supply(h, s, job, m, c);
        if bytes.Some? && !WriteFails(job, k, bytes.value) {
          var t := ChunkTrace(s, job, c, bytes.value);
          ChunkKeepsMarks(s, job, c, bytes.value, id);
          LoopKeepsMarks(h, t[2], job, m, k + 1, id);
          MarksKeptJoin(s, t, t[2], LoopTrace(h, t[2], job, m, k + 1), id);
        }
      }
    }
  }

  lemma AttemptKeepsMarks(h: Hash, s: Disk, job: Job, id: TaskId)
    requires id != job.id
    ensures MarksKept(s, Trace(h, s, job), id)
  {
    var s1 := Start(s, job);
    if Received(s1, job).Some? {
      var prep := OpenTrace(s1, job, MarkedPrefix(s1, job));
      var rest := LoopTrace(h, Last(prep), job, MemoryOf(s1, job), 0);
      OpenKeepsMarks(s1, job, MarkedPrefix(s1, job), id);
      LoopKeepsMarks(h, Last(prep), job, MemoryOf(s1, job), 0, id);
      MarksKeptJoin(s, [s1], s1, prep, id);
      MarksKeptJoin(s, [s1] + prep, Last(prep), rest, id);
    }
  }

  /** A job for another file: another task, and neither the file nor its .part. */
  predicate Elsewhere(job: Job, target: Job) {
    job.id != target.id && job.path != target.path && job.path != TempOf(target.path)
  }

  lemma ForeignKeepsInv(h: Hash, s: Disk, job: Job, target: Job, content: Bytes, c: Disk)
    requires Elsewhere(job, target) && Inv(s, target, content)
    requires CrashLeaves(h, s, job, c)
    ensures Inv(c, target, content)
  {
    var t, temp := Trace(h, s, job), TempOf(target.path);
    CrashIsSafe(h, s, job, c);
    AttemptKeepsMarks(h, s, job, target.id);
    assert temp != TempOf(job.path) by {
      assert TempOf(target.path)[..|target.path|] == target.path && TempOf(job.path)[..|job.path|] == job.path;
    }
    assert temp in Others(c, job.path) <==> temp in c.files;
    assert temp in Others(s, job.path) <==> temp in s.files;
    assert FileAt(c, temp) == FileAt(s, temp);
    hide Trace, ResumePrefix;
    if c != s && c !in t {
      var i :| 0 < i < |t| && Torn(t[i - 1], t[i], job.path, c);
      assert t[i] in t;
    }
    assert MarksOf(c, target.id) == MarksOf(s, target.id);
  }

  // ---------- The theorem ----------

  predicate SameTarget(job: Job, target: Job) {
    job.path == target.path && job.id == target.id && job.chunks == target.chunks
  }

  /** A run in which every attempt is for this version of the file, of an honest server, or for another file. */
  ghost predicate VersionRun(h: Hash, states: seq<Disk>, jobs: seq<Job>, target: Job, content: Bytes) {
    && |states| == |jobs| + 1
    && forall i | 0 <= i < |jobs| ::
         && CrashLeaves(h, states[i], jobs[i], states[i + 1])
         && (|| Elsewhere(jobs[i], target)
             || (SameTarget(jobs[i], target) && JobFor(h, jobs[i], content)
                 && LocalReadsAgree(h, states[i].files, jobs[i], content)))
  }

  lemma {:induction false} InvAlways(h: Hash, states: seq<Disk>, jobs: seq<Job>, target: Job, content: Bytes, n: nat)
    requires VersionRun(h, states, jobs, target, content) && n <= |jobs|
    requires Inv(states[0], target, content)
    ensures Inv(states[n], target, content)
  {
    if n > 0 {
      InvAlways(h, states, jobs, target, content, n - 1);
      var job := jobs[n - 1];
      if Elsewhere(job, target) {
        ForeignKeepsInv(h, states[n - 1], job, target, content, states[n]);
      } else {
        assert MarkedPrefix(states[n - 1], job) == MarkedPrefix(states[n - 1], target);
        CrashKeepsInv(h, states[n - 1], job, content, states[n]);
        assert MarkedPrefix(states[n], job) == MarkedPrefix(states[n], target);
      }
    }
  }

  /**
   The resume invariant: at every crash point of every run that starts with no chunk marked, a .part
   whose length is that of the marked prefix holds exactly that prefix of the remote file.
   */
  lemma ResumeIsExact(h: Hash, states: seq<Disk>, jobs: seq<Job>, target: Job, content: Bytes, n: nat)
    requires VersionRun(h, states, jobs, target, content) && n <= |jobs|
    requires Tiles(h, target.chunks, content) && MarksOf(states[0], target.id) == map[]
    ensures var s, temp := states[n], TempOf(target.path);
            var bytes := PrefixBytes(target.chunks, MarkedPrefix(s, target), 0);
            temp in s.files && |s.files[temp]| == bytes ==> bytes <= |content| && s.files[temp] == content[..bytes]
  {
    ClearedHasNoPrefix(states[0], target);
    InvAlways(h, states, jobs, target, content, n);
    PrefixBytesIsOffset(h, target.chunks, content, MarkedPrefix(states[n], target));
  }
}
