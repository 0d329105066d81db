/** Commit safety: whatever crashes and whatever arrives, a final file changes only to the requested bytes. */
module CommitSafety {
  import opened Base
  import opened Chunks
  import opened Attempt

  /** Every file but the .part of the path. */
  function Others(s: Disk, path: Path): map<Path, Bytes> {
    s.files - {TempOf(path)}
  }

  /** The contents the .part has in the states of t. */
  function PartContents(t: seq<Disk>, path: Path): set<Bytes> {
    set s | s in t && TempOf(path) in s.files :: s.files[TempOf(path)]
  }

  /** No file but the .part differs, or only the job's file does, and it is a former .part with the right hash. */
  ghost predicate Safe(h: Hash, s: Disk, t: Disk, job: Job, parts: set<Bytes>) {
    || Others(t, job.path) == Others(s, job.path)
    || exists b :: b in parts && h(b) == job.root && Others(t, job.path) == Others(s, job.path)[job.path := b]
  }

  lemma PartWritesKeepOthers(s: Disk, path: Path, content: Bytes)
    ensures Others(WithFile(s, TempOf(path), content), path) == Others(s, path)
    ensures Others(WithoutFile(s, TempOf(path)), path) == Others(s, path)
  {
  }

  lemma OpenKeepsOthers(s: Disk, job: Job, prefix: nat)
    ensures forall t | t in OpenTrace(s, job, prefix) :: Others(t, job.path) == Others(s, job.path)
  {
    var s1 := WithFile(s, TempOf(job.path), []);
    PartWritesKeepOthers(s, job.path, []);
    PartWritesKeepOthers(s1, job.path, []);
    PartWritesKeepOthers(WithoutFile(s, TempOf(job.path)), job.path, []);
    PartWritesKeepOthers(WithoutFile(s1, TempOf(job.path)), job.path, []);
  }

  lemma ChunkKeepsOthers(s: Disk, job: Job, c: ChunkEntry, bytes: Bytes)
    requires TempOf(job.path) in s.files
    ensures forall t | t in ChunkTrace(s, job, c, bytes) :: Others(t, job.path) == Others(s, job.path)
  {
    PartWritesKeepOthers(s, job.path, s.files[TempOf(job.path)] + bytes);
  }

  lemma CommitIsSafe(h: Hash, s: Disk, job: Job, parts: set<Bytes>)
    requires TempOf(job.path) in s.files && s.files[TempOf(job.path)] in parts
    ensures forall t | t in CommitTrace(h, s, job) :: Safe(h, s, t, job, parts)
  {
    var b := s.files[TempOf(job.path)];
    PartWritesKeepOthers(s, job.path, []);
    assert Others(Renamed(s, TempOf(job.path), job.path), job.path) == Others(s, job.path)[job.path := b];
  }

  lemma {:induction false} LoopIsSafe(h: Hash, s: Disk, job: Job, m: Memory, k: nat, parts: set<Bytes>)
    requires TempOf(job.path) in s.files && k <= |job.chunks|
    requires s.files[TempOf(job.path)] in parts
    requires PartContents(LoopTrace(h, s, job, m, k), job.path) <= parts
    ensures forall t | t in LoopTrace(h, s, job, m, k) :: Safe(h, s, t, job, parts)
    decreases |job.chunks| - k
  {
    if k == |job.chunks| {
      CommitIsSafe(h, s, job, parts);
    } else if job.chunks[k].index < m.prefix {
      LoopIsSafe(h, s, job, m, k + 1, parts);
    } else {
      var c := job.chunks[k];
      var bytes := Supply(h, s, job, m, c);
      if bytes.Some? && WriteFails(job, k, bytes.value) {
        PartWritesKeepOthers(s, job.path, s.files[TempOf(job.path)] + bytes.value[..job.faults.accepted]);
      } else if bytes.Some? {
        var t := ChunkTrace(s, job, c, bytes.value);
        var rest := LoopTrace(h, t[2], job, m, k + 1);
        ChunkKeepsOthers(s, job, c, bytes.value);
        assert t[2] in t + rest && forall u | u in rest :: u in t + rest;
        assert t[2].files[TempOf(job.path)] in PartContents(t + rest, job.path);
        LoopIsSafe(h, t[2], job, m, k + 1, parts);
      }
    }
  }

  /**
   One attempt, at every persistent state: no file changes but the .part, or the final file becomes a .part that
   hashes to the root.
   */
  lemma AttemptIsSafe(h: Hash, s: Disk, job: Job)
    ensures forall t | t in Trace(h, s, job) :: Safe(h, s, t, job, PartContents(Trace(h, s, job), job.path))
  {
    var s1 := Start(s, job);
    if Received(s1, job).Some? {
      var prep := OpenTrace(s1, job, MarkedPrefix(s1, job));
      var rest := LoopTrace(h, Last(prep), job, MemoryOf(s1, job), 0);
      var all := [s1] + prep + rest;
      OpenKeepsOthers(s1, job, MarkedPrefix(s1, job));
      assert Last(prep) in prep && forall u | u in prep || u in rest :: u in all;
      assert PartContents(rest, job.path) <= PartContents(all, job.path);
      LoopIsSafe(h, Last(prep), job, MemoryOf(s1, job), 0, PartContents(all, job.path));
    }
  }

  // ---------- Crashes and whole runs ----------

  /** A write to the .part, from t0 to t1, that a crash cut short at c. */
  ghost predicate Torn(t0: Disk, t1: Disk, path: Path, c: Disk) {
    var temp := TempOf(path);
    && temp in t0.files && temp in t1.files && t1 == WithFile(t0, temp, t1.files[temp])
    && exists b :: t0.files[temp] <= b <= t1.files[temp] && c == WithFile(t0, temp, b)
  }

  /** What a crash at any moment of the attempt can leave: no write yet, any persistent state, or a torn append. */
  ghost predicate CrashLeaves(h: Hash, s: Disk, job: Job, c: Disk) {
    var t := Trace(h, s, job);
    || c == s
    || c in t
    || exists i :: 0 < i < |t| && Torn(t[i - 1], t[i], job.path, c)
  }

  lemma CrashIsSafe(h: Hash, s: Disk, job: Job, c: Disk)
    requires CrashLeaves(h, s, job, c)
    ensures Safe(h, s, c, job, PartContents(Trace(h, s, job), job.path))
  {
    var t := Trace(h, s, job);
    AttemptIsSafe(h, s, job);
    if c != s && c !in t {
      var i :| 0 < i < |t| && Torn(t[i - 1], t[i], job.path, c);
      var b :| c == WithFile(t[i - 1], TempOf(job.path), b);
      PartWritesKeepOthers(t[i - 1], job.path, b);
      assert t[i - 1] in t;
    }
  }

  /** No other byte string the .part holds during the attempt hashes like the requested content. */
  predicate NoCollision(h: Hash, parts: set<Bytes>, content: Bytes) {
    forall b | b in parts :: h(b) == h(content) ==> b == content
  }

  /** A history of attempts, each for some version of some file, each ending, or crashing, anywhere. */
  ghost predicate Run(h: Hash, states: seq<Disk>, jobs: seq<Job>, versions: seq<Bytes>) {
    && |states| == |jobs| + 1 && |versions| == |jobs|
    && forall i | 0 <= i < |jobs| ::
         && CrashLeaves(h, states[i], jobs[i], states[i + 1])
         && jobs[i].root == h(versions[i])
         && NoCollision(h, PartContents(Trace(h, states[i], jobs[i]), jobs[i].path), versions[i])
  }

  /**
   Each attempt of a run leaves every file outside the .part as it was, or makes the job's file exactly the requested
   version.
   */
  lemma StepOfRun(h: Hash, states: seq<Disk>, jobs: seq<Job>, versions: seq<Bytes>, i: nat)
    requires Run(h, states, jobs, versions) && i < |jobs|
    ensures var before, after := Others(states[i], jobs[i].path), Others(states[i + 1], jobs[i].path);
            after == before || after == before[jobs[i].path := versions[i]]
  {
    CrashIsSafe(h, states[i], jobs[i], states[i + 1]);
  }

  /** What is at a path, if anything. */
  function FileAt(s: Disk, x: Path): Option<Bytes> {
    if x in s.files then Some(s.files[x]) else None
  }

  /**
   Commit safety over every run: at any path that is no job's .part, the file is what it was at the
   start, or the version some attempt of the run requested for that path.
   */
  lemma {:induction false} CommitSafety(
    h: Hash, states: seq<Disk>, jobs: seq<Job>, versions: seq<Bytes>, n: nat, x: Path)
    requires Run(h, states, jobs, versions) && n <= |jobs|
    requires forall i | 0 <= i < n :: x != TempOf(jobs[i].path)
    ensures || FileAt(states[n], x) == FileAt(states[0], x)
            || exists i :: 0 <= i < n && jobs[i].path == x && FileAt(states[n], x) == Some(versions[i])
  {
    if n > 0 {
      CommitSafety(h, states, jobs, versions, n - 1, x);
      StepOfRun(h, states, jobs, versions, n - 1);
      var path := jobs[n - 1].path;
      var before, after := Others(states[n - 1], path), Others(states[n], path);
      assert x in before <==> x in states[n - 1].files;
      assert x in after <==> x in states[n].files;
      if after == before {
        assert FileAt(states[n], x) == FileAt(states[n - 1], x);
      } else {
        assert FileAt(states[n], x) == if x == path then Some(versions[n - 1]) else FileAt(states[n - 1], x);
      }
    }
  }
}
