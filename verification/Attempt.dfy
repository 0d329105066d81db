/**
 One sync attempt for one file, as the list of persistent states it passes through.

 The client's persistent state is its files and its sync_task_chunks and sync_tasks tables; every
 write the client makes adds one state to the list. A crash leaves the disk in one of them.
 */
module Attempt {
  import opened Base
  import opened Chunks

  type TaskId = Str

  datatype TaskState = Queued | Running | Verifying | Committed | Failed

  /** The columns of a sync_tasks row that change during an attempt; the counts are 32-bit numbers. */
  datatype TaskRow = TaskRow(state: TaskState, completed: nat, total: nat, retries: nat)

  /** A sync_task_chunks row, without its keys. */
  datatype Mark = Mark(offset: nat, size: nat, hash: Str)

  datatype Disk = Disk(
    files: map<Path, Bytes>,
    marks: map<TaskId, map<nat, Mark>>,
    tasks: map<TaskId, TaskRow>)

  // ---------- The persistent writes ----------

  const PART: Str := [46, 112, 97, 114, 116]  // ".part"

  function TempOf(path: Path): Path { path + PART }

  function WithFile(s: Disk, path: Path, content: Bytes): Disk {
    s.(files := s.files[path := content])
  }

  function WithoutFile(s: Disk, path: Path): Disk {
    s.(files := s.files - {path})
  }

  function Renamed(s: Disk, from: Path, to: Path): Disk
    requires from in s.files
  {
    s.(files := (s.files - {from})[to := s.files[from]])
  }

  function MarksOf(s: Disk, id: TaskId): map<nat, Mark> {
    if id in s.marks then s.marks[id] else map[]
  }

  function WithMark(s: Disk, id: TaskId, c: ChunkEntry): Disk {
    s.(marks := s.marks[id := MarksOf(s, id)[c.index := Mark(c.offset, c.size, c.hash)]])
  }

  function Cleared(s: Disk, id: TaskId): Disk {
    s.(marks := s.marks[id := map[]])
  }

  function RowOf(s: Disk, id: TaskId): TaskRow {
    if id in s.tasks then s.tasks[id] else TaskRow(Queued, 0, 0, 0)
  }

  function WithRow(s: Disk, id: TaskId, row: TaskRow): Disk {
    s.(tasks := s.tasks[id := row])
  }

  // ---------- What an attempt is given ----------

  /** One frame the server answers with: a chunk, or an error. */
  datatype Reply = Data(index: nat, bytes: Bytes) | Refused

  /** Where the operating system fails the client: a write that takes too few bytes, a rename that fails. */
  datatype Faults = Faults(writeAt: Option<nat>, accepted: nat, renameFails: bool)

  const NO_FAULTS := Faults(None, 0, false)

  /**
   path: the final path. chunks and root: the remote manifest. missing: the request Compare made.
   local: the chunks of the local record at path, if any. serve: the frames that arrive for a request.
   */
  datatype Job = Job(
    path: Path, id: TaskId, chunks: seq<ChunkEntry>, root: Str,
    missing: seq<ChunkEntry>, local: Option<seq<ChunkEntry>>,
    serve: seq<ChunkEntry> -> seq<Reply>, faults: Faults)

  // ---------- The helpers of main.cpp and ChunkReader ----------

  predicate MarkMatches(marks: map<nat, Mark>, c: ChunkEntry) {
    c.index in marks && marks[c.index] == Mark(c.offset, c.size, c.hash)
  }

  /** ComputeResumePrefixCount, counted from position k. */
  function ResumePrefix(marks: map<nat, Mark>, chunks: seq<ChunkEntry>, k: nat): (p: nat)
    requires k <= |chunks|
    ensures k <= p <= |chunks|
    ensures forall i | k <= i < p :: MarkMatches(marks, chunks[i])
    ensures p < |chunks| ==> !MarkMatches(marks, chunks[p])
    decreases |chunks| - k
  {
    if k < |chunks| && MarkMatches(marks, chunks[k]) then ResumePrefix(marks, chunks, k + 1) else k
  }

  /** ComputePrefixBytes, added from position k. */
  function PrefixBytes(chunks: seq<ChunkEntry>, prefix: nat, k: nat): nat
    requires k <= |chunks|
    decreases |chunks| - k
  {
    if k < |chunks| && chunks[k].index < prefix then chunks[k].size + PrefixBytes(chunks, prefix, k + 1) else 0
  }

  /** TrimCompletedChunks. */
  function Trim(missing: seq<ChunkEntry>, prefix: nat): (t: seq<ChunkEntry>)
    ensures forall c :: c in t <==> c in missing && c.index >= prefix
  {
    if missing == [] then []
    else
      var rest := Trim(missing[..|missing| - 1], prefix);
      var c := missing[|missing| - 1];
      assert missing == missing[..|missing| - 1] + [c];
      if c.index >= prefix then rest + [c] else rest
  }

  /** The first n frames by chunk index, the earlier one winning; None if one is missing or an error. */
  function Collect(replies: seq<Reply>, n: nat): Option<map<nat, Bytes>> {
    if n == 0 then Some(map[])
    else
      var before := Collect(replies, n - 1);
      if before.None? || n > |replies| || replies[n - 1].Refused? then None
      else
        var r := replies[n - 1];
        Some(if r.index in before.value then before.value else before.value[r.index := r.bytes])
  }

  function Indexes(chunks: seq<ChunkEntry>): set<nat> {
    set c | c in chunks :: c.index
  }

  /** The first chunk with this index, as unordered_map::emplace keeps it. */
  function Lookup(chunks: seq<ChunkEntry>, index: nat): (r: Option<ChunkEntry>)
    ensures r.Some? ==> r.value in chunks && r.value.index == index
  {
    if chunks == [] then None
    else if chunks[0].index == index then Some(chunks[0])
    else Lookup(chunks[1..], index)
  }

  /** ChunkReader::ReadAndVerify: the bytes the chunk names in the file, if they are there and hash to its hash. */
  function ReadAndVerify(h: Hash, files: map<Path, Bytes>, path: Path, c: ChunkEntry): (r: Option<Bytes>)
    ensures r.Some? ==> h(r.value) == c.hash && |r.value| == c.size
  {
    if path !in files then None
    else if c.size == 0 then if h([]) == c.hash then Some([]) else None
    else if InFile(c, files[path]) && h(Slice(c, files[path])) == c.hash then Some(Slice(c, files[path]))
    else None
  }

  // ---------- The attempt ----------

  /** What the client keeps in memory while it rebuilds the file. */
  datatype Memory = Memory(prefix: nat, wanted: set<nat>, received: map<nat, Bytes>)

  /** The bytes for one chunk: from the server if it was asked for, else from the local file. */
  function Supply(h: Hash, s: Disk, job: Job, m: Memory, c: ChunkEntry): Option<Bytes> {
    if c.index in m.wanted then
      if c.index in m.received then Some(m.received[c.index]) else None
    else if job.local.None? then None
    else
      var l := Lookup(job.local.value, c.index);
      if l.None? || l.value.hash != c.hash || l.value.size != c.size then None
      else ReadAndVerify(h, s.files, job.path, c)
  }

  function Start(s: Disk, job: Job): Disk {
    WithRow(s, job.id, RowOf(s, job.id).(state := Running, total := |job.chunks| % TWO_32))
  }

  /** Reset before a fresh .part: marks cleared, row reset, file created empty. */
  function ResetTrace(s: Disk, job: Job): seq<Disk> {
    var s1 := Cleared(s, job.id);
    var s2 := WithRow(s1, job.id, RowOf(s1, job.id).(completed := 0));
    [s1, s2, WithFile(s2, TempOf(job.path), [])]
  }

  /** Whether the .part has the length the marked prefix asks for; Resume starts an absent .part empty. */
  predicate LengthFits(s: Disk, job: Job, prefix: nat) {
    var temp := TempOf(job.path);
    (if temp in s.files then |s.files[temp]| else 0) == PrefixBytes(job.chunks, prefix, 0)
  }

  /** Opening the writer: resume on the marked prefix if the .part fits it, else start over. */
  function OpenTrace(s: Disk, job: Job, prefix: nat): (t: seq<Disk>)
    ensures |t| > 0 && TempOf(job.path) in t[|t| - 1].files
  {
    if prefix == 0 then ResetTrace(s, job)
    else
      var temp := TempOf(job.path);
      var created := if temp in s.files then [] else [WithFile(s, temp, [])];
      var s1 := if temp in s.files then s else WithFile(s, temp, []);
      if LengthFits(s, job, prefix) then
        created + [WithRow(s1, job.id, RowOf(s1, job.id).(completed := prefix))]
      else
        var s2 := WithoutFile(s1, temp);
        created + [s2] + ResetTrace(s2, job)
  }

  function OpenPrefix(s: Disk, job: Job, prefix: nat): nat {
    if prefix > 0 && LengthFits(s, job, prefix) then prefix else 0
  }

  function FailedRow(s: Disk, id: TaskId): Disk {
    var row := RowOf(s, id);
    WithRow(s, id, row.(state := Failed, retries := (row.retries + 1) % TWO_32))
  }

  function CommittedRow(row: TaskRow): TaskRow { row.(state := Committed, completed := row.total) }

  /** VerifyAndCommit and what follows it. */
  function CommitTrace(h: Hash, s: Disk, job: Job): (t: seq<Disk>)
    requires TempOf(job.path) in s.files
    ensures |t| > 0
  {
    var temp := TempOf(job.path);
    var s1 := WithRow(s, job.id, RowOf(s, job.id).(state := Verifying));
    if h(s.files[temp]) != job.root || job.faults.renameFails then
      var s2 := WithoutFile(s1, temp);
      [s1, s2, FailedRow(s2, job.id)]
    else
      var s2 := Renamed(s1, temp, job.path);
      var s3 := Cleared(s2, job.id);
      [s1, s2, s3, WithRow(s3, job.id, CommittedRow(RowOf(s3, job.id)))]
  }

  /** Append, mark, and row update for one chunk. */
  function ChunkTrace(s: Disk, job: Job, c: ChunkEntry, bytes: Bytes): (t: seq<Disk>)
    requires TempOf(job.path) in s.files
    ensures |t| == 3 && TempOf(job.path) in t[2].files
  {
    var temp := TempOf(job.path);
    var s1 := WithFile(s, temp, s.files[temp] + bytes);
    var s2 := WithMark(s1, job.id, c);
    [s1, s2, WithRow(s2, job.id, RowOf(s2, job.id).(completed := (c.index + 1) % TWO_32))]
  }

  predicate WriteFails(job: Job, k: nat, bytes: Bytes) {
    job.faults.writeAt == Some(k) && job.faults.accepted < |bytes|
  }

  /** The reconstruction loop from chunk k on, and the commit. */
  function LoopTrace(h: Hash, s: Disk, job: Job, m: Memory, k: nat): (t: seq<Disk>)
    requires TempOf(job.path) in s.files && k <= |job.chunks|
    ensures |t| > 0
    decreases |job.chunks| - k
  {
    if k == |job.chunks| then CommitTrace(h, s, job)
    else
      var c := job.chunks[k];
      if c.index < m.prefix then LoopTrace(h, s, job, m, k + 1)
      else
        var bytes := Supply(h, s, job, m, c);
        if bytes.None? then [FailedRow(s, job.id)]
        else if WriteFails(job, k, bytes.value) then
          var temp := TempOf(job.path);
          var s1 := WithFile(s, temp, s.files[temp] + bytes.value[..job.faults.accepted]);
          [s1, FailedRow(s1, job.id)]
        else
          var t := ChunkTrace(s, job, c, bytes.value);
          t + LoopTrace(h, t[2], job, m, k + 1)
  }

  function Last<T>(t: seq<T>): T
    requires |t| > 0
  {
    t[|t| - 1]
  }

  /** The marked prefix, and the request that is sent for what lies behind it. */
  function MarkedPrefix(s: Disk, job: Job): nat {
    ResumePrefix(MarksOf(s, job.id), job.chunks, 0)
  }

  function Request(s: Disk, job: Job): seq<ChunkEntry> {
    Trim(job.missing, MarkedPrefix(s, job))
  }

  function Received(s: Disk, job: Job): Option<map<nat, Bytes>> {
    var request := Request(s, job);
    Collect(if request == [] then [] else job.serve(request), |request|)
  }

  function MemoryOf(s: Disk, job: Job): Memory
    requires Received(s, job).Some?
  {
    Memory(OpenPrefix(s, job, MarkedPrefix(s, job)), Indexes(Request(s, job)), Received(s, job).value)
  }

  /** The states of an attempt once the requested chunks have arrived. */
  function Rebuilding(h: Hash, s: Disk, job: Job): (t: seq<Disk>)
    requires Received(s, job).Some?
    ensures |t| > 0
  {
    var prep := OpenTrace(s, job, MarkedPrefix(s, job));
    prep + LoopTrace(h, Last(prep), job, MemoryOf(s, job), 0)
  }

  /** Every persistent state of one attempt, in order. An attempt that receives too little stops after the first. */
  function Trace(h: Hash, s: Disk, job: Job): (t: seq<Disk>)
    ensures |t| > 0
  {
    var s1 := Start(s, job);
    if Received(s1, job).None? then [s1] else [s1] + Rebuilding(h, s1, job)
  }

  /** The disk after an attempt that was not interrupted, and whether it committed. */
  function After(h: Hash, s: Disk, job: Job): Disk {
    Last(Trace(h, s, job))
  }

  predicate Commits(h: Hash, s: Disk, job: Job) {
    RowOf(After(h, s, job), job.id).state == Committed
  }

  /** A server that answers every request with these frames. */
  function AnswerWith(replies: seq<Reply>): seq<ChunkEntry> -> seq<Reply> {
    request => replies
  }

  /** What is written depends on request and server only through what was asked for and received. */
  lemma {:induction false} SameLoop(h: Hash, s: Disk, a: Job, b: Job, m: Memory, k: nat)
    requires a == b.(serve := a.serve, missing := a.missing) && TempOf(a.path) in s.files && k <= |a.chunks|
    ensures LoopTrace(h, s, a, m, k) == LoopTrace(h, s, b, m, k)
    decreases |a.chunks| - k
  {
    if k < |a.chunks| {
      hide CommitTrace, ReadAndVerify;
      var c := a.chunks[k];
      if c.index < m.prefix {
        SameLoop(h, s, a, b, m, k + 1);
      } else {
        assert Supply(h, s, a, m, c) == Supply(h, s, b, m, c);
        var bytes := Supply(h, s, a, m, c);
        if bytes.Some? {
          assert ChunkTrace(s, a, c, bytes.value) == ChunkTrace(s, b, c, bytes.value);
          SameLoop(h, ChunkTrace(s, a, c, bytes.value)[2], a, b, m, k + 1);
        }
      }
    }
  }

  lemma SameRebuilding(h: Hash, s: Disk, a: Job, b: Job)
    requires a == b.(serve := a.serve, missing := a.missing)
    requires Request(s, a) == Request(s, b) && Received(s, a).Some? && Received(s, a) == Received(s, b)
    ensures Rebuilding(h, s, a) == Rebuilding(h, s, b)
  {
    hide LoopTrace, Received, Request;
    var prep := OpenTrace(s, a, MarkedPrefix(s, a));
    assert prep == OpenTrace(s, b, MarkedPrefix(s, b)) && MemoryOf(s, a) == MemoryOf(s, b);
    SameLoop(h, Last(prep), a, b, MemoryOf(s, a), 0);
  }

  /** Two jobs that ask the same of the same server pass through the same states. */
  lemma SameTrace(h: Hash, s: Disk, a: Job, b: Job)
    requires a == b.(missing := a.missing) && Request(Start(s, a), a) == Request(Start(s, b), b)
    ensures Trace(h, s, a) == Trace(h, s, b)
  {
    var s1 := Start(s, a);
    hide Rebuilding, Collect, Request;
    if Received(s1, a).Some? {
      SameRebuilding(h, s1, a, b);
    }
  }

  lemma {:induction false} CollectedFrom(replies: seq<Reply>, n: nat)
    ensures var c := Collect(replies, n);
            c.Some? ==> forall i | i in c.value :: Data(i, c.value[i]) in replies
  {
    if n > 0 {
      CollectedFrom(replies, n - 1);
    }
  }

  lemma {:induction false} CollectStops(replies: seq<Reply>, m: nat, n: nat)
    requires m <= n && Collect(replies, m).None?
    ensures Collect(replies, n).None?
  {
    if m < n {
      CollectStops(replies, m, n - 1);
    }
  }

  // ---------- How an attempt ends ----------

  /** The row says committed, and the final file has the requested hash. */
  ghost predicate EndsCommitted(h: Hash, e: Disk, job: Job) {
    RowOf(e, job.id).state == Committed && job.path in e.files && h(e.files[job.path]) == job.root
  }

  lemma {:induction false} LoopEndsOneWay(h: Hash, s: Disk, job: Job, m: Memory, k: nat)
    requires TempOf(job.path) in s.files && k <= |job.chunks|
    ensures var e := Last(LoopTrace(h, s, job, m, k));
            RowOf(e, job.id).state == Failed || EndsCommitted(h, e, job)
    decreases |job.chunks| - k
  {
    if k < |job.chunks| {
      hide CommitTrace;
      var c := job.chunks[k];
      if c.index < m.prefix {
        LoopEndsOneWay(h, s, job, m, k + 1);
      } else {
        var bytes := Supply(h, s, job, m, c);
        if bytes.Some? && !WriteFails(job, k, bytes.value) {
          LoopEndsOneWay(h, ChunkTrace(s, job, c, bytes.value)[2], job, m, k + 1);
        }
      }
    }
  }

  lemma RebuildingEnds(h: Hash, s: Disk, job: Job)
    requires Received(s, job).Some?
    ensures var e := Last(Rebuilding(h, s, job));
            RowOf(e, job.id).state == Failed || EndsCommitted(h, e, job)
  {
    hide LoopTrace, Received, OpenTrace;
    LoopEndsOneWay(h, Last(OpenTrace(s, job, MarkedPrefix(s, job))), job, MemoryOf(s, job), 0);
  }

  /**
   The row after an attempt that was not interrupted is running, committed or failed: running if and only if too little
   arrived, and committed only with the requested file in place.
   */
  lemma RowAfter(h: Hash, s: Disk, job: Job)
    ensures var e := After(h, s, job);
            && (RowOf(e, job.id).state == Running <==> Received(Start(s, job), job).None?)
            && (RowOf(e, job.id).state == Committed <==> EndsCommitted(h, e, job))
            && RowOf(e, job.id).state in {Running, Committed, Failed}
  {
    hide Received, Rebuilding;
    if Received(Start(s, job), job).Some? {
      RebuildingEnds(h, Start(s, job), job);
    }
  }

  /** One error frame for a request leaves the row running. */
  lemma RefusedLeavesRunning(h: Hash, s: Disk, job: Job)
    requires Request(Start(s, job), job) != [] && job.serve == AnswerWith([Refused])
    ensures RowOf(After(h, s, job), job.id).state == Running
  {
    hide Request;
    CollectStops([Refused], 1, |Request(Start(s, job), job)|);
    RowAfter(h, s, job);
  }
}
