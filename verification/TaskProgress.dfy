/** What the task row says of an attempt: the number of chunks done, the total, and the failures so far. */
module TaskProgress {
  import opened Base
  import opened Chunks
  import opened Attempt

  /** The chunks of one file are numbered from zero; there are fewer than 2^32. */
  predicate Numbered(chunks: seq<ChunkEntry>) {
    |chunks| < TWO_32 && forall i | 0 <= i < |chunks| :: chunks[i].index == i
  }

  /** The first n chunks are marked, and none behind them. */
  predicate MarkedUpTo(s: Disk, job: Job, n: nat) {
    && n <= |job.chunks|
    && (forall i | 0 <= i < n :: MarkMatches(MarksOf(s, job.id), job.chunks[i]))
    && forall i | n <= i < |job.chunks| :: job.chunks[i].index !in MarksOf(s, job.id)
  }

  /** Once the first chunk is marked, nothing is marked behind the marked prefix. */
  predicate NoGap(s: Disk, job: Job) {
    MarkedPrefix(s, job) > 0 ==> MarkedUpTo(s, job, MarkedPrefix(s, job))
  }

  lemma PrefixIs(s: Disk, job: Job, n: nat)
    requires Numbered(job.chunks) && MarkedUpTo(s, job, n)
    ensures MarkedPrefix(s, job) == n && NoGap(s, job)
  {
    var p := MarkedPrefix(s, job);
    assert n < p ==> MarkMatches(MarksOf(s, job.id), job.chunks[n]);
  }

  /** Writes to files and to the task's own row leave the marks. */
  lemma SameMarks(s: Disk, t: Disk, job: Job, n: nat)
    requires MarkedUpTo(s, job, n) && s.marks == t.marks
    ensures MarkedUpTo(t, job, n)
  {
  }

  lemma OneMore(s: Disk, job: Job, n: nat)
    requires Numbered(job.chunks) && MarkedUpTo(s, job, n) && n < |job.chunks|
    ensures MarkedUpTo(WithMark(s, job.id, job.chunks[n]), job, n + 1)
  {
  }

  predicate SameFile(before: Disk, after: Disk, path: Path) {
    (path in before.files <==> path in after.files) && (path in after.files ==> after.files[path] == before.files[path])
  }

  /**
   From one state to the next: the total is the number of chunks, only failing counts a retry, all chunks are done when
   verification begins, and a row written before that counts the leading chunks that are marked. The final file changes
   only while the row says verifying, and until it has changed all chunks stay marked.
   */
  ghost predicate RowRight(before: Disk, after: Disk, job: Job, retries: nat) {
    var row := RowOf(after, job.id);
    && (!SameFile(before, after, job.path) ==> RowOf(before, job.id).state == row.state == Verifying)
    && (row.state == Verifying && SameFile(before, after, job.path) && RowOf(before, job.id).state != Verifying ==>
          MarkedPrefix(after, job) == |job.chunks|)
    && (after.marks != before.marks && RowOf(before, job.id).state == Verifying ==>
          job.path in after.files && TempOf(job.path) !in after.files)
    && row.total == |job.chunks|
    && row.retries == (if row.state == Failed then (retries + 1) % TWO_32 else retries)
    && (row.state == Verifying || row.state == Committed ==> row.completed == |job.chunks|)
    && (row.state == Running && after.tasks != before.tasks ==> row.completed == MarkedPrefix(after, job))
    && NoGap(after, job)
  }

  function Previous(before: Disk, t: seq<Disk>, i: nat): Disk
    requires i < |t|
  {
    if i == 0 then before else t[i - 1]
  }

  /** Every state of the list follows the one before it rightly, and only the last one can be an end. */
  ghost predicate RowsRight(before: Disk, t: seq<Disk>, job: Job, retries: nat) {
    && (forall i | 0 <= i < |t| :: RowRight(Previous(before, t, i), t[i], job, retries))
    && forall i | 0 <= i < |t| - 1 :: RowOf(t[i], job.id).state in {Running, Verifying}
  }

  lemma RowsJoin(before: Disk, t: seq<Disk>, u: seq<Disk>, job: Job, retries: nat)
    requires |t| > 0 && RowsRight(before, t, job, retries) && RowsRight(Last(t), u, job, retries)
    requires RowOf(Last(t), job.id).state in {Running, Verifying}
    ensures RowsRight(before, t + u, job, retries)
  {
    hide RowRight, RowOf;
    var all := t + u;
    forall i | 0 <= i < |all|
      ensures RowRight(Previous(before, all, i), all[i], job, retries)
    {
      if i < |t| {
        assert all[i] == t[i] && Previous(before, all, i) == Previous(before, t, i);
      } else {
        assert all[i] == u[i - |t|] && Previous(before, all, i) == Previous(Last(t), u, i - |t|);
      }
    }
    forall i | 0 <= i < |all| - 1
      ensures RowOf(all[i], job.id).state in {Running, Verifying}
    {
      assert i >= |t| ==> all[i] == u[i - |t|];
      assert i == |t| - 1 ==> all[i] == Last(t);
    }
  }

  /** The state the loop is in before chunk k: so many chunks are marked and counted. */
  ghost predicate InLoop(s: Disk, job: Job, retries: nat, n: nat) {
    && TempOf(job.path) in s.files && MarkedUpTo(s, job, n)
    && RowOf(s, job.id) == TaskRow(Running, n, |job.chunks|, retries)
  }

  lemma ChunkRows(s: Disk, job: Job, bytes: Bytes, retries: nat, k: nat)
    requires Numbered(job.chunks) && InLoop(s, job, retries, k) && k < |job.chunks|
    ensures var t := ChunkTrace(s, job, job.chunks[k], bytes);
            RowsRight(s, t, job, retries) && InLoop(t[2], job, retries, k + 1)
  {
    var t := ChunkTrace(s, job, job.chunks[k], bytes);
    SameMarks(s, t[0], job, k);
    OneMore(t[0], job, k);
    SameMarks(t[1], t[2], job, k + 1);
    PrefixIs(t[0], job, k);
    PrefixIs(t[1], job, k + 1);
    PrefixIs(t[2], job, k + 1);
    hide MarkedUpTo, MarkedPrefix, NoGap;
    assert RowRight(s, t[0], job, retries) && RowRight(t[0], t[1], job, retries) && RowRight(t[1], t[2], job, retries);
  }

  lemma CommitRows(h: Hash, s: Disk, job: Job, retries: nat)
    requires Numbered(job.chunks) && InLoop(s, job, retries, |job.chunks|)
    ensures RowsRight(s, CommitTrace(h, s, job), job, retries)
  {
    var t, n := CommitTrace(h, s, job), |job.chunks|;
    SameMarks(s, t[0], job, n);
    SameMarks(s, t[1], job, n);
    PrefixIs(t[0], job, n);
    PrefixIs(t[1], job, n);
    if |t| == 3 {
      SameMarks(s, t[2], job, n);
      PrefixIs(t[2], job, n);
    } else {
      NothingMarked(t[2], job);
      NothingMarked(t[3], job);
    }
    hide MarkedUpTo, MarkedPrefix, NoGap;
    assert RowRight(s, t[0], job, retries) && RowRight(t[0], t[1], job, retries) && RowRight(t[1], t[2], job, retries);
    assert |t| > 3 ==> RowRight(t[2], t[3], job, retries);
  }

  lemma NothingMarked(s: Disk, job: Job)
    requires MarksOf(s, job.id) == map[]
    ensures MarkedUpTo(s, job, 0) && MarkedPrefix(s, job) == 0 && NoGap(s, job)
  {
  }

  lemma FailureRow(s: Disk, t: Disk, job: Job, retries: nat, k: nat)
    requires Numbered(job.chunks) && MarkedUpTo(s, job, k) && s.marks == t.marks && SameFile(s, t, job.path)
    requires RowOf(s, job.id).total == |job.chunks| && RowOf(s, job.id).retries == retries
    requires t == FailedRow(s, job.id) || (t.tasks == s.tasks && RowOf(s, job.id).state == Running)
    ensures RowRight(s, t, job, retries)
  {
    SameMarks(s, t, job, k);
    PrefixIs(t, job, k);
  }

  /** The ways the loop fails at chunk k. */
  lemma FailureRows(h: Hash, s: Disk, job: Job, m: Memory, retries: nat, k: nat)
    requires Numbered(job.chunks) && InLoop(s, job, retries, k) && m.prefix <= k < |job.chunks|
    requires var bytes := Supply(h, s, job, m, job.chunks[k]); bytes.None? || WriteFails(job, k, bytes.value)
    ensures RowsRight(s, LoopTrace(h, s, job, m, k), job, retries)
  {
    var t := LoopTrace(h, s, job, m, k);
    FailureRow(s, t[0], job, retries, k);
    if |t| == 2 {
      SameMarks(s, t[0], job, k);
      FailureRow(t[0], t[1], job, retries, k);
    }
    hide Supply, CommitTrace, ChunkTrace, RowRight, MarkedUpTo;
  }

  lemma LoopIsRunning(s: Disk, job: Job, retries: nat, n: nat)
    requires InLoop(s, job, retries, n)
    ensures TempOf(job.path) in s.files && RowOf(s, job.id).state == Running
  {
  }

  lemma {:induction false} LoopRows(h: Hash, s: Disk, job: Job, m: Memory, retries: nat, k: nat)
    requires Numbered(job.chunks) && k <= |job.chunks| && m.prefix <= |job.chunks|
    requires InLoop(s, job, retries, if k < m.prefix then m.prefix else k)
    ensures RowsRight(s, LoopTrace(h, s, job, m, k), job, retries)
    decreases |job.chunks| - k
  {
    hide InLoop, RowsRight, Supply, CommitTrace, ChunkTrace;
    LoopIsRunning(s, job, retries, if k < m.prefix then m.prefix else k);
    if k == |job.chunks| {
      CommitRows(h, s, job, retries);
    } else if k < m.prefix {
      LoopRows(h, s, job, m, retries, k + 1);
    } else {
      var bytes := Supply(h, s, job, m, job.chunks[k]);
      if bytes.None? || WriteFails(job, k, bytes.value) {
        FailureRows(h, s, job, m, retries, k);
      } else {
        var t := ChunkTrace(s, job, job.chunks[k], bytes.value);
        ChunkRows(s, job, bytes.value, retries, k);
        LoopRows(h, t[2], job, m, retries, k + 1);
        LoopIsRunning(t[2], job, retries, k + 1);
        RowsJoin(s, t, LoopTrace(h, t[2], job, m, k + 1), job, retries);
      }
    }
  }

  // ---------- The beginning of an attempt ----------

  /** The row is running, with this total and these retries, whatever it counts. */
  ghost predicate Begun(s: Disk, job: Job, retries: nat) {
    var row := RowOf(s, job.id);
    row.state == Running && row.total == |job.chunks| && row.retries == retries && NoGap(s, job)
  }

  lemma SameRow(s: Disk, t: Disk, job: Job, retries: nat)
    requires Begun(s, job, retries) && s.marks == t.marks && s.tasks == t.tasks && SameFile(s, t, job.path)
    ensures Begun(t, job, retries) && RowRight(s, t, job, retries)
  {
  }

  lemma ResetRows(s: Disk, job: Job, retries: nat)
    requires Numbered(job.chunks) && Begun(s, job, retries)
    ensures RowsRight(s, ResetTrace(s, job), job, retries) && InLoop(Last(ResetTrace(s, job)), job, retries, 0)
  {
    var t := ResetTrace(s, job);
    NothingMarked(t[0], job);
    NothingMarked(t[1], job);
    NothingMarked(t[2], job);
    hide MarkedUpTo, MarkedPrefix, NoGap;
    assert RowRight(s, t[0], job, retries) && RowRight(t[0], t[1], job, retries) && RowRight(t[1], t[2], job, retries);
  }

  lemma OneRow(before: Disk, t: Disk, job: Job, retries: nat)
    requires RowRight(before, t, job, retries)
    ensures RowsRight(before, [t], job, retries)
  {
  }

  lemma ResumeRow(s: Disk, job: Job, retries: nat)
    requires Numbered(job.chunks) && Begun(s, job, retries) && MarkedPrefix(s, job) > 0
    ensures var n := MarkedPrefix(s, job);
            var t := WithRow(s, job.id, RowOf(s, job.id).(completed := n));
            RowRight(s, t, job, retries) && (TempOf(job.path) in s.files ==> InLoop(t, job, retries, n))
  {
    var n := MarkedPrefix(s, job);
    var t := WithRow(s, job.id, RowOf(s, job.id).(completed := n));
    SameMarks(s, t, job, n);
    PrefixIs(t, job, n);
  }

  lemma OpenRows(s: Disk, job: Job, retries: nat)
    requires Numbered(job.chunks) && Begun(s, job, retries)
    ensures var prefix := MarkedPrefix(s, job);
            var t := OpenTrace(s, job, prefix);
            RowsRight(s, t, job, retries) && InLoop(Last(t), job, retries, OpenPrefix(s, job, prefix))
  {
    var prefix, temp := MarkedPrefix(s, job), TempOf(job.path);
    if prefix == 0 {
      ResetRows(s, job, retries);
    } else {
      var created := if temp in s.files then [] else [WithFile(s, temp, [])];
      var s1 := if temp in s.files then s else WithFile(s, temp, []);
      SameRow(s, s1, job, retries);
      var behind, last := OpenedBehind(s1, job, prefix, LengthFits(s, job, prefix)), OpenTrace(s, job, prefix);
      assert last == created + behind;
      OpenedRows(s1, job, retries, LengthFits(s, job, prefix));
      if created != [] {
        OneRow(s, s1, job, retries);
        RowsJoin(s, created, behind, job, retries);
      } else {
        assert last == behind;
      }
    }
  }

  /** What opening on a marked prefix writes once there is a .part. */
  function OpenedBehind(s: Disk, job: Job, prefix: nat, fits: bool): (t: seq<Disk>)
    ensures |t| > 0
  {
    if fits then [WithRow(s, job.id, RowOf(s, job.id).(completed := prefix))]
    else [WithoutFile(s, TempOf(job.path))] + ResetTrace(WithoutFile(s, TempOf(job.path)), job)
  }

  lemma OpenedRows(s: Disk, job: Job, retries: nat, fits: bool)
    requires Numbered(job.chunks) && Begun(s, job, retries) && MarkedPrefix(s, job) > 0 && TempOf(job.path) in s.files
    ensures var t := OpenedBehind(s, job, MarkedPrefix(s, job), fits);
            RowsRight(s, t, job, retries) && InLoop(Last(t), job, retries, if fits then MarkedPrefix(s, job) else 0)
  {
    hide InLoop, RowRight, NoGap;
    if fits {
      ResumeRow(s, job, retries);
      OneRow(s, WithRow(s, job.id, RowOf(s, job.id).(completed := MarkedPrefix(s, job))), job, retries);
    } else {
      var s2 := WithoutFile(s, TempOf(job.path));
      SameRow(s, s2, job, retries);
      OneRow(s, s2, job, retries);
      ResetRows(s2, job, retries);
      RowsJoin(s, [s2], ResetTrace(s2, job), job, retries);
    }
  }

  /**
   Over a whole attempt: every row counts right, retries go up by one (modulo 2^32) in the state that failed and in no
   other, a committed or verifying row counts all chunks, and the marks never get a gap.
   */
  lemma AttemptRows(h: Hash, s: Disk, job: Job)
    requires Numbered(job.chunks) && NoGap(s, job)
    ensures var t, retries := Trace(h, s, job), RowOf(s, job.id).retries;
            && Begun(t[0], job, retries)
            && RowsRight(t[0], t[1..], job, retries)
  {
    var s1, retries := Start(s, job), RowOf(s, job.id).retries;
    assert Begun(s1, job, retries);
    if Received(s1, job).Some? {
      RebuildingRows(h, s1, job, retries);
      hide Rebuilding, Received, RowsRight;
      assert Trace(h, s, job)[1..] == Rebuilding(h, s1, job);
    }
  }

  lemma RebuildingRows(h: Hash, s: Disk, job: Job, retries: nat)
    requires Numbered(job.chunks) && Begun(s, job, retries) && Received(s, job).Some?
    ensures RowsRight(s, Rebuilding(h, s, job), job, retries)
  {
    hide Received, RowsRight, LoopTrace, OpenTrace, Begun;
    var prep, m := OpenTrace(s, job, MarkedPrefix(s, job)), MemoryOf(s, job);
    OpenRows(s, job, retries);
    LoopRows(h, Last(prep), job, m, retries, 0);
    RowsJoin(s, prep, LoopTrace(h, Last(prep), job, m, 0), job, retries);
  }

  /** The row an attempt leaves, by its end: committed with all chunks counted, failed once more, or still running. */
  lemma AttemptCounts(h: Hash, s: Disk, job: Job)
    requires Numbered(job.chunks) && NoGap(s, job)
    ensures var row, n, retries := RowOf(After(h, s, job), job.id), |job.chunks|, RowOf(s, job.id).retries;
            && row.total == n
            && (row.state == Committed ==> row.completed == n && row.retries == retries)
            && (row.state == Failed ==> row.retries == (retries + 1) % TWO_32)
            && (row.state == Running ==> row.retries == retries)
            && NoGap(After(h, s, job), job)
  {
    AttemptRows(h, s, job);
    hide Trace, NoGap;
    var t := Trace(h, s, job);
    assert |t| > 1 ==> Last(t) == t[1..][|t| - 2];
  }

  /** Wherever an attempt is interrupted before its end, no retry is counted. */
  lemma CrashCountsNothing(h: Hash, s: Disk, job: Job, k: nat)
    requires Numbered(job.chunks) && NoGap(s, job) && k < |Trace(h, s, job)| - 1
    ensures var row := RowOf(Trace(h, s, job)[k], job.id);
            row.retries == RowOf(s, job.id).retries && row.total == |job.chunks|
    ensures NoGap(Trace(h, s, job)[k], job)
  {
    AttemptRows(h, s, job);
    hide Trace, NoGap;
    var t := Trace(h, s, job);
    assert k > 0 ==> t[k] == t[1..][k - 1];
  }
}
