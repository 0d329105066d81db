/** RunClient's work for one requested file, proved to write exactly the states of Attempt.Trace. */
module SyncClient {
  import opened Base
  import opened Chunks
  import opened Attempt
  import opened Hasher
  import opened SyncWriter
  import ChunkReader
  import TaskProgress

  /** What reaches the hasher in one call fits its 32-bit length: chunk sizes and frame payloads. */
  ghost predicate Sendable(job: Job) {
    && (forall c | c in job.chunks :: Hashable(c.size))
    && (forall request, r {:trigger r in job.serve(request)} | r in job.serve(request) && r.Data? :: Hashable(|r.bytes|))
  }

  method ComputeResumePrefixCount(completed: map<nat, Mark>, chunks: seq<ChunkEntry>) returns (prefix: nat)
    ensures prefix == ResumePrefix(completed, chunks, 0)
    ensures prefix <= |chunks| && forall i | 0 <= i < prefix ::
              chunks[i].index in completed
              && completed[chunks[i].index] == Mark(chunks[i].offset, chunks[i].size, chunks[i].hash)
    ensures prefix < |chunks| ==>
              var c := chunks[prefix];
              c.index in completed ==> completed[c.index] != Mark(c.offset, c.size, c.hash)
  {
    prefix := 0;
    while prefix < |chunks|
      invariant prefix <= |chunks|
      invariant ResumePrefix(completed, chunks, 0) == ResumePrefix(completed, chunks, prefix)
    {
      var c := chunks[prefix];
      if c.index !in completed {
        break;
      }
      var mark := completed[c.index];
      if mark.hash != c.hash || mark.size != c.size || mark.offset != c.offset {
        break;
      }
      prefix := prefix + 1;
    }
  }

  method ComputePrefixBytes(chunks: seq<ChunkEntry>, prefix: nat) returns (total: nat)
    ensures total == PrefixBytes(chunks, prefix, 0)
  {
    total := 0;
    var k := 0;
    while k < |chunks|
      invariant k <= |chunks|
      invariant PrefixBytes(chunks, prefix, 0) == total + PrefixBytes(chunks, prefix, k)
    {
      if chunks[k].index >= prefix {
        break;
      }
      total := total + chunks[k].size;
      k := k + 1;
    }
  }

  method TrimCompletedChunks(missing: seq<ChunkEntry>, prefix: nat) returns (trimmed: seq<ChunkEntry>)
    ensures trimmed == Trim(missing, prefix)
  {
    trimmed := [];
    for k := 0 to |missing|
      invariant trimmed == Trim(missing[..k], prefix)
    {
      assert missing[..k + 1][..k] == missing[..k];
      if missing[k].index >= prefix {
        trimmed := trimmed + [missing[k]];
      }
    }
    assert missing[..|missing|] == missing;
  }

  /** Receives one frame for every requested chunk; None when the connection ends or an error frame comes. */
  method ReceiveChunks(replies: seq<Reply>, count: nat) returns (received: Option<map<nat, Bytes>>)
    ensures received == Collect(replies, count)
  {
    var chunks: map<nat, Bytes> := map[];
    for i := 0 to count
      invariant Collect(replies, i) == Some(chunks)
    {
      if i >= |replies| || replies[i].Refused? {
        CollectStops(replies, i + 1, count);
        return None;
      }
      if replies[i].index !in chunks {
        chunks := chunks[replies[i].index := replies[i].bytes];
      }
    }
    received := Some(chunks);
  }

  /** What is supplied is no longer than the hasher takes in one call. */
  lemma SupplyIsHashable(s: Disk, start: Disk, job: Job, c: ChunkEntry)
    requires Sendable(job) && c in job.chunks && Received(start, job).Some?
    requires Supply(MD5HEX, s, job, MemoryOf(start, job), c).Some?
    ensures Hashable(|Supply(MD5HEX, s, job, MemoryOf(start, job), c).value|)
  {
    var m, request := MemoryOf(start, job), Request(start, job);
    var replies := if request == [] then [] else job.serve(request);
    assert m.received == Collect(replies, |request|).value;
    if c.index in m.wanted && c.index in m.received {
      CollectedFrom(replies, |request|);
    }
  }

  lemma LoopEnds(s: Disk, job: Job, m: Memory)
    requires TempOf(job.path) in s.files
    ensures LoopTrace(MD5HEX, s, job, m, |job.chunks|) == CommitTrace(MD5HEX, s, job)
  {
  }

  /** The first steps of an attempt: the row, the marked prefix, and the request for what lies behind it. */
  method BeginTask(disk: ClientDisk, job: Job) returns (prefix: nat, request: seq<ChunkEntry>)
    modifies disk
    ensures disk.Wrote(Start(old(disk.Now()), job))
    ensures prefix == MarkedPrefix(disk.Now(), job) && request == Request(disk.Now(), job)
  {
    hide Trim, ResumePrefix;
    var row := RowOf(disk.Now(), job.id);
    disk.UpsertTask(job.id, row.(state := Running, total := |job.chunks| % TWO_32));
    prefix := ComputeResumePrefixCount(MarksOf(disk.Now(), job.id), job.chunks);
    request := TrimCompletedChunks(job.missing, prefix);
  }

  /** One file of RunClient's loop. */
  class FileSync {
    const disk: ClientDisk
    const writer: SyncWriter
    const job: Job

    ghost predicate Linked()
      reads this, writer
    {
      writer.disk == disk && Sendable(job)
    }

    constructor (disk: ClientDisk, job: Job)
      requires Sendable(job)
      ensures Linked() && this.disk == disk && this.job == job
      ensures writer.Valid() && !writer.active && fresh(writer) && fresh(writer.HashRepr())
    {
      this.disk, this.job := disk, job;
      writer := new SyncWriter(disk);
    }

    /** Clears the marks, resets the row and starts an empty .part. */
    method StartOver()
      requires Linked() && writer.Valid()
      modifies disk, writer, writer.HashRepr()
      ensures writer.Valid() && writer.active && writer.finalPath == job.path
      ensures disk.history == old(disk.history) + ResetTrace(old(disk.Now()), job)
      ensures disk.Now() == Last(ResetTrace(old(disk.Now()), job))
    {
      hide Md5Hasher.Valid, Md5Hasher.Fed;
      disk.ClearTaskChunks(job.id);
      var row := RowOf(disk.Now(), job.id);
      disk.UpsertTask(job.id, row.(completed := 0));
      writer.Begin(job.path);
    }

    /** Resume, or a fresh .part; returns the prefix the loop may skip. */
    method OpenWriter(prefix: nat) returns (skip: nat)
      requires Linked() && writer.Valid() && !writer.active
      modifies disk, writer, writer.HashRepr()
      ensures writer.Valid() && writer.active && writer.finalPath == job.path
      ensures disk.history == old(disk.history) + OpenTrace(old(disk.Now()), job, prefix)
      ensures disk.Now() == Last(OpenTrace(old(disk.Now()), job, prefix))
      ensures skip == OpenPrefix(old(disk.Now()), job, prefix)
    {
      hide Md5Hasher.Valid, Md5Hasher.Fed, ResetTrace;
      if prefix > 0 {
        writer.Resume(job.path);
        var expected := ComputePrefixBytes(job.chunks, prefix);
        if writer.bytesWritten == expected {
          var row := RowOf(disk.Now(), job.id);
          disk.UpsertTask(job.id, row.(completed := prefix));
          return prefix;
        }
        writer.Abort();
      }
      StartOver();
      skip := 0;
    }

    method SupplyChunk(m: Memory, c: ChunkEntry) returns (bytes: Option<Bytes>)
      requires Hashable(c.size)
      ensures bytes == Supply(MD5HEX, disk.Now(), job, m, c)
    {
      if c.index in m.wanted {
        return if c.index in m.received then Some(m.received[c.index]) else None;
      }
      if job.local.None? {
        return None;
      }
      var l := Lookup(job.local.value, c.index);
      if l.None? || l.value.hash != c.hash || l.value.size != c.size {
        return None;
      }
      bytes := ChunkReader.ReadFile(disk.files, job.path, c);
    }

    method MarkFailed()
      modifies disk
      ensures disk.Wrote(FailedRow(old(disk.Now()), job.id))
    {
      var row := RowOf(disk.Now(), job.id);
      disk.UpsertTask(job.id, row.(state := Failed, retries := (row.retries + 1) % TWO_32));
    }

    /** Verification, rename, and the final bookkeeping. */
    method Finish() returns (committed: bool)
      requires Linked() && writer.Valid() && writer.active && writer.finalPath == job.path
      modifies disk, writer
      ensures disk.history == old(disk.history) + CommitTrace(MD5HEX, old(disk.Now()), job)
      ensures disk.Now() == Last(CommitTrace(MD5HEX, old(disk.Now()), job))
      ensures committed <==> RowOf(disk.Now(), job.id).state == Committed
    {
      hide Md5Hasher.Valid, Md5Hasher.Fed;
      var row := RowOf(disk.Now(), job.id);
      disk.UpsertTask(job.id, row.(state := Verifying));
      committed := writer.VerifyAndCommit(job.root, job.faults.renameFails);
      if !committed {
        MarkFailed();
        return;
      }
      disk.ClearTaskChunks(job.id);
      row := RowOf(disk.Now(), job.id);
      disk.UpsertTask(job.id, row.(state := Committed, completed := row.total));
    }

    /** Append, mark and row update for one supplied chunk; false if the write failed. */
    method StoreChunk(k: nat, bytes: Bytes) returns (ok: bool)
      requires Linked() && writer.Valid() && writer.active && writer.finalPath == job.path
      requires k < |job.chunks| && Hashable(|bytes|)
      modifies disk, writer, writer.HashRepr()
      ensures ok <==> !WriteFails(job, k, bytes)
      ensures ok ==> writer.Valid() && writer.active && writer.finalPath == job.path
      ensures ok ==> disk.history == old(disk.history) + ChunkTrace(old(disk.Now()), job, job.chunks[k], bytes)
      ensures ok ==> disk.Now() == ChunkTrace(old(disk.Now()), job, job.chunks[k], bytes)[2]
      ensures !ok ==>
                var s, temp := old(disk.Now()), TempOf(job.path);
                var s1 := WithFile(s, temp, s.files[temp] + bytes[..job.faults.accepted]);
                disk.history == old(disk.history) + [s1, FailedRow(s1, job.id)] && disk.Now() == FailedRow(s1, job.id)
    {
      hide Md5Hasher.Valid, Md5Hasher.Fed;
      ok := writer.Append(bytes, if job.faults.writeAt == Some(k) then job.faults.accepted else |bytes|, |bytes|);
      if !ok {
        MarkFailed();
        return;
      }
      disk.MarkTaskChunkComplete(job.id, job.chunks[k]);
      var row := RowOf(disk.Now(), job.id);
      disk.UpsertTask(job.id, row.(completed := (job.chunks[k].index + 1) % TWO_32));
    }

    /** One turn of the reconstruction loop; false if it ends the attempt. wrote: the states it wrote. */
    method Turn(m: Memory, k: nat, ghost start: Disk) returns (ok: bool, ghost wrote: seq<Disk>)
      requires Linked() && writer.Valid() && writer.active && writer.finalPath == job.path
      requires Received(start, job).Some? && m == MemoryOf(start, job) && k < |job.chunks|
      modifies disk, writer, writer.HashRepr()
      ensures disk.history == old(disk.history) + wrote
      ensures ok ==> writer.Valid() && writer.active && writer.finalPath == job.path
                     && LoopTrace(MD5HEX, old(disk.Now()), job, m, k)
                        == wrote + LoopTrace(MD5HEX, disk.Now(), job, m, k + 1)
      ensures !ok ==> LoopTrace(MD5HEX, old(disk.Now()), job, m, k) == wrote && disk.Now() == Last(wrote)
                      && RowOf(disk.Now(), job.id).state != Committed
    {
      hide Md5Hasher.Valid, Md5Hasher.Fed, OpenPrefix, Request, Received, ChunkTrace, Supply;
      ghost var before := disk.Now();
      var c := job.chunks[k];
      if c.index < m.prefix {
        return true, [];
      }
      var bytes := SupplyChunk(m, c);
      if bytes.None? {
        MarkFailed();
        return false, [disk.Now()];
      }
      SupplyIsHashable(before, start, job, c);
      ok := StoreChunk(k, bytes.value);
      ghost var temp := TempOf(job.path);
      wrote :=
        if ok then ChunkTrace(before, job, c, bytes.value)
        else [WithFile(before, temp, before.files[temp] + bytes.value[..job.faults.accepted]), disk.Now()];
    }

    /** The reconstruction loop over the remote chunks, then the commit. */
    method Reconstruct(m: Memory, ghost start: Disk) returns (committed: bool)
      requires Linked() && writer.Valid() && writer.active && writer.finalPath == job.path
      requires Received(start, job).Some? && m == MemoryOf(start, job)
      modifies disk, writer, writer.HashRepr()
      ensures disk.history == old(disk.history) + LoopTrace(MD5HEX, old(disk.Now()), job, m, 0)
      ensures disk.Now() == Last(LoopTrace(MD5HEX, old(disk.Now()), job, m, 0))
      ensures committed <==> RowOf(disk.Now(), job.id).state == Committed
    {
      hide Md5Hasher.Valid, Md5Hasher.Fed, OpenPrefix, Request, Received, MemoryOf, LoopTrace, CommitTrace, RowOf;
      ghost var done: seq<Disk> := [];
      var k := 0;
      while k < |job.chunks|
        invariant k <= |job.chunks|
        invariant writer.Valid() && writer.active && writer.finalPath == job.path
        invariant disk.history == old(disk.history) + done
        invariant LoopTrace(MD5HEX, old(disk.Now()), job, m, 0) == done + LoopTrace(MD5HEX, disk.Now(), job, m, k)
      {
        var ok, wrote := Turn(m, k, start);
        done := done + wrote;
        if !ok {
          return false;
        }
        k := k + 1;
      }
      LoopEnds(disk.Now(), job, m);
      committed := Finish();
    }

    /** The rest of an attempt, once the requested chunks have arrived. */
    method Rebuild(prefix: nat, request: seq<ChunkEntry>, received: map<nat, Bytes>) returns (committed: bool)
      requires Linked() && writer.Valid() && !writer.active
      requires prefix == MarkedPrefix(disk.Now(), job) && request == Request(disk.Now(), job)
      requires Received(disk.Now(), job) == Some(received)
      modifies disk, writer, writer.HashRepr()
      ensures disk.history == old(disk.history) + Rebuilding(MD5HEX, old(disk.Now()), job)
      ensures disk.Now() == Last(Rebuilding(MD5HEX, old(disk.Now()), job))
      ensures committed <==> RowOf(disk.Now(), job.id).state == Committed
    {
      hide Md5Hasher.Valid, Md5Hasher.Fed, OpenTrace, LoopTrace, OpenPrefix, Received, Request, MarkedPrefix;
      ghost var start := disk.Now();
      var skip := OpenWriter(prefix);
      committed := Reconstruct(Memory(skip, Indexes(request), received), start);
    }

    /** The whole attempt for one file: the disk passes through exactly the states of Trace. */
    method Sync() returns (committed: bool)
      requires Linked() && writer.Valid() && !writer.active
      modifies disk, writer, writer.HashRepr()
      ensures disk.history == old(disk.history) + Trace(MD5HEX, old(disk.Now()), job)
      ensures disk.Now() == After(MD5HEX, old(disk.Now()), job)
      ensures committed <==> Commits(MD5HEX, old(disk.Now()), job)
      ensures TaskProgress.Numbered(job.chunks) && TaskProgress.NoGap(old(disk.Now()), job) ==>
                var row, before := RowOf(disk.Now(), job.id), RowOf(old(disk.Now()), job.id);
                && (row.state == Committed ==> row == TaskRow(Committed, |job.chunks|, |job.chunks|, before.retries))
                && row.retries == if row.state == Failed then (before.retries + 1) % TWO_32 else before.retries
    {
      hide Md5Hasher.Valid, Md5Hasher.Fed, Request, MarkedPrefix, Rebuilding, Collect,
        TaskProgress.Numbered, TaskProgress.NoGap;
      if TaskProgress.Numbered(job.chunks) && TaskProgress.NoGap(disk.Now(), job) {
        TaskProgress.AttemptCounts(MD5HEX, disk.Now(), job);
        RowAfter(MD5HEX, disk.Now(), job);
      }
      var prefix, request := BeginTask(disk, job);
      var received := ReceiveChunks(if request == [] then [] else job.serve(request), |request|);
      assert received == Received(disk.Now(), job);
      hide Received;
      if received.None? {
        return false;
      }
      committed := Rebuild(prefix, request, received.value);
    }
  }
}
