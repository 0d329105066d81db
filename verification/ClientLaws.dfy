/** What a session keeps and what its acknowledgement means, whatever the server sends and wherever it ends. */
module ClientLaws {
  import opened Base
  import opened Chunks
  import opened Attempt
  import opened CommitSafety
  import opened ResumeInvariant
  import opened Convergence
  import opened Diff
  import opened Server
  import opened WithoutLocal
  import opened ClientRun
  import I = FileIndex

  function Found(env: Environment, q: ChunksRequest): Option<ManifestFile> {
    FindRemoteFile(ManifestFiles(env.server.records), q.fileId, q.relativePath)
  }

  /** The request's file is at x, and has the root hash of the manifest. */
  ghost predicate InPlace(h: Hash, env: Environment, s: Disk, q: ChunksRequest, x: Path) {
    && x == PathOf(env.root, q.relativePath) && x in s.files
    && Found(env, q).Some? && h(s.files[x]) == Found(env, q).value.summary.rootHash
  }

  ghost predicate KeptOrPlaced(h: Hash, env: Environment, s: Disk, t: Disk, q: ChunksRequest, x: Path) {
    FileAt(t, x) == FileAt(s, x) || InPlace(h, env, t, q, x)
  }

  lemma StepIsSafe(h: Hash, env: Environment, c: ClientState, q: ChunksRequest, x: Path)
    requires x != TempOf(PathOf(env.root, q.relativePath))
    ensures forall t | t in Step(h, env, c, q).states :: KeptOrPlaced(h, env, c.disk, t, q, x)
    ensures KeptOrPlaced(h, env, c.disk, Step(h, env, c, q).client.disk, q, x)
  {
    hide Trace, I.Upsert, Refreshed, LocalAt;
    if Found(env, q).Some? {
      var job := JobOf(h, env, c.index, Found(env, q).value, q);
      AttemptIsSafe(h, c.disk, job);
      forall t | t in Trace(h, c.disk, job)
        ensures KeptOrPlaced(h, env, c.disk, t, q, x)
      {
        SafeAt(h, c.disk, t, job, PartContents(Trace(h, c.disk, job), job.path), x);
      }
      assert After(h, c.disk, job) in Trace(h, c.disk, job);
    }
  }

  lemma SafeAt(h: Hash, s: Disk, t: Disk, job: Job, parts: set<Bytes>, x: Path)
    requires Safe(h, s, t, job, parts) && x != TempOf(job.path)
    ensures FileAt(t, x) == FileAt(s, x) || (x == job.path && x in t.files && h(t.files[x]) == job.root)
  {
    assert x in Others(s, job.path) <==> x in s.files;
    assert x in Others(t, job.path) <==> x in t.files;
    assert x in t.files ==> Others(t, job.path)[x] == t.files[x];
  }

  /** A file of another path stays. */
  lemma StepKeepsFile(h: Hash, env: Environment, c: ClientState, q: ChunksRequest, x: Path)
    requires x != PathOf(env.root, q.relativePath) && x != TempOf(PathOf(env.root, q.relativePath))
    ensures FileAt(Step(h, env, c, q).client.disk, x) == FileAt(c.disk, x)
  {
    hide Step;
    StepIsSafe(h, env, c, q, x);
  }

  /** The end of an attempt that is acknowledged. */
  lemma StepPlaces(h: Hash, env: Environment, c: ClientState, q: ChunksRequest)
    requires Step(h, env, c, q).going
    ensures InPlace(h, env, Step(h, env, c, q).client.disk, q, PathOf(env.root, q.relativePath))
  {
    hide Trace, I.Upsert, Refreshed, LocalAt;
    RowAfter(h, c.disk, JobOf(h, env, c.index, Found(env, q).value, q));
  }

  /** x is as it was, or holds a requested file. */
  ghost predicate KeptOrSynced(h: Hash, env: Environment, s: Disk, t: Disk, requests: seq<ChunksRequest>, x: Path) {
    FileAt(t, x) == FileAt(s, x) || exists q :: q in requests && InPlace(h, env, t, q, x)
  }

  /** Every persistent state of a session: a file that is no request's .part stays, or is a requested file in place. */
  lemma {:induction false} SessionIsSafe(
    h: Hash, env: Environment, c: ClientState, requests: seq<ChunksRequest>, x: Path)
    requires forall q | q in requests :: x != TempOf(PathOf(env.root, q.relativePath))
    ensures var p := Steps(h, env, c, requests);
            forall t | t in p.states || t == p.client.disk :: KeptOrSynced(h, env, c.disk, t, requests, x)
  {
    hide Step, KeptOrPlaced, KeptOrSynced;
    if requests == [] {
      NothingTouched(h, env, c.disk, x);
    } else {
      var front, q := requests[..|requests| - 1], requests[|requests| - 1];
      assert requests == front + [q];
      SessionIsSafe(h, env, c, front, x);
      var before := Steps(h, env, c, front);
      forall t | KeptOrSynced(h, env, c.disk, t, front, x)
        ensures KeptOrSynced(h, env, c.disk, t, requests, x)
      {
        MoreRequests(h, env, c.disk, t, front, q, x);
      }
      if before.going {
        StepIsSafe(h, env, before.client, q, x);
        forall t | KeptOrPlaced(h, env, before.client.disk, t, q, x)
          ensures KeptOrSynced(h, env, c.disk, t, requests, x)
        {
          SafeSince(h, env, c.disk, before.client.disk, t, front, q, x);
        }
      }
    }
  }

  lemma NothingTouched(h: Hash, env: Environment, s: Disk, x: Path)
    ensures KeptOrSynced(h, env, s, s, [], x)
  {
  }

  lemma MoreRequests(
    h: Hash, env: Environment, s: Disk, t: Disk, front: seq<ChunksRequest>, q: ChunksRequest, x: Path)
    requires KeptOrSynced(h, env, s, t, front, x)
    ensures KeptOrSynced(h, env, s, t, front + [q], x)
  {
    if FileAt(t, x) != FileAt(s, x) {
      var p :| p in front && InPlace(h, env, t, p, x);
      assert p in front + [q];
    }
  }

  lemma SafeSince(
    h: Hash, env: Environment, s: Disk, u: Disk, t: Disk, front: seq<ChunksRequest>, q: ChunksRequest, x: Path)
    requires KeptOrSynced(h, env, s, u, front, x) && KeptOrPlaced(h, env, u, t, q, x)
    ensures KeptOrSynced(h, env, s, t, front + [q], x)
  {
    if InPlace(h, env, t, q, x) {
      assert q in front + [q];
    } else if FileAt(t, x) != FileAt(s, x) {
      var p :| p in front && InPlace(h, env, u, p, x);
      assert p in front + [q] && InPlace(h, env, t, p, x);
    }
  }

  // ---------- What an acknowledgement means ----------

  /** Two requests whose files and .part files are four different paths. */
  predicate FilesApart(root: Path, q: ChunksRequest, u: ChunksRequest) {
    var a, b := PathOf(root, q.relativePath), PathOf(root, u.relativePath);
    a != b && a != TempOf(b) && b != TempOf(a)
  }

  predicate AllApart(root: Path, requests: seq<ChunksRequest>) {
    forall i, j | 0 <= i < j < |requests| :: FilesApart(root, requests[i], requests[j])
  }

  /** A later attempt leaves what is in place where it is. */
  lemma StaysInPlace(h: Hash, env: Environment, c: ClientState, q: ChunksRequest, u: ChunksRequest)
    requires FilesApart(env.root, q, u)
    requires InPlace(h, env, c.disk, q, PathOf(env.root, q.relativePath))
    ensures InPlace(h, env, Step(h, env, c, u).client.disk, q, PathOf(env.root, q.relativePath))
  {
    hide Step;
    StepIsSafe(h, env, c, u, PathOf(env.root, q.relativePath));
  }

  /** An acknowledged session leaves every requested file in place, whatever server and link did. */
  lemma {:induction false} AcknowledgedMeansInPlace(
    h: Hash, env: Environment, c: ClientState, requests: seq<ChunksRequest>)
    requires AllApart(env.root, requests) && Steps(h, env, c, requests).going
    ensures forall q | q in requests ::
              InPlace(h, env, Steps(h, env, c, requests).client.disk, q, PathOf(env.root, q.relativePath))
  {
    hide Step, InPlace, FilesApart;
    if requests != [] {
      var n := |requests| - 1;
      var front, last := requests[..n], requests[n];
      AcknowledgedMeansInPlace(h, env, c, front);
      var before := Steps(h, env, c, front);
      StepPlaces(h, env, before.client, last);
      forall q | q in requests
        ensures InPlace(h, env, Step(h, env, before.client, last).client.disk, q, PathOf(env.root, q.relativePath))
      {
        var i :| 0 <= i < |requests| && requests[i] == q;
        if i < n {
          assert front[i] in front && FilesApart(env.root, requests[i], requests[n]);
          StaysInPlace(h, env, before.client, q, last);
        }
      }
    }
  }

  // ---------- Two files with one content ----------

  /** Chunk k of the request's file is left out of the request, and lies behind what is marked. */
  ghost predicate LeftOut(c: ClientState, f: ManifestFile, q: ChunksRequest, k: nat) {
    && k < |f.chunks| && f.chunks[k].index !in Indexes(q.missing)
    && ResumePrefix(MarksOf(c.disk, TaskIdOf(q)), f.chunks, 0) <= f.chunks[k].index
  }

  /** Without an index row or a file at the path, a request that leaves a chunk out ends the session and changes no file. */
  lemma NoLocalFails(h: Hash, env: Environment, c: ClientState, q: ChunksRequest, k: nat)
    requires Found(env, q).Some?
    requires LocalAt(c.index, PathOf(env.root, q.relativePath)).None? || PathOf(env.root, q.relativePath) !in c.disk.files
    requires LeftOut(c, Found(env, q).value, q, k)
    ensures var p, chunks := Step(h, env, c, q), Found(env, q).value.chunks;
            && !p.going && p.client.index == c.index
            && FileAt(p.client.disk, PathOf(env.root, q.relativePath)) == FileAt(c.disk, PathOf(env.root, q.relativePath))
            && ((forall i | 0 <= i < k :: chunks[i].index != chunks[k].index) ==>
                  chunks[k].index in MarksOf(p.client.disk, TaskIdOf(q)) ==>
                    chunks[k].index in MarksOf(c.disk, TaskIdOf(q)))
  {
    hide Trace, ResumePrefix, Indexes, LocalAt, I.Upsert, Refreshed, MarksOf, TaskIdOf;
    AttemptLacks(h, c.disk, JobOf(h, env, c.index, Found(env, q).value, q), k);
  }

  /**
   The index row of a file moves to another path when a file of the same hash is committed there: if b's local file has
   the hash that a now has, committing a takes b's row away, and b fails when a chunk of it was to come from that file.
   */
  lemma TakenRowStopsSession(
    h: Hash, env: Environment, c: ClientState, a: ChunksRequest, b: ChunksRequest, k: nat)
    requires I.Valid(c.index) && FilesApart(env.root, a, b) && TaskIdOf(a) != TaskIdOf(b)
    requires Found(env, a).Some? && Found(env, b).Some? && LeftOut(c, Found(env, b).value, b, k)
    requires I.IdAt(c.index, PathOf(env.root, b.relativePath)) == Some(Found(env, a).value.summary.rootHash)
    ensures !Steps(h, env, c, [a, b]).going
  {
    var d := Step(h, env, c, a);
    TwoSteps(h, env, c, a, b);
    if d.going {
      StepPlaces(h, env, c, a);
      RowMoves(h, env, c, a, PathOf(env.root, b.relativePath));
      hide Step, I.IdAt, ResumePrefix, MarksOf;
      assert MarksOf(d.client.disk, TaskIdOf(b)) == MarksOf(c.disk, TaskIdOf(b)) by {
        StepKeepsMarks(h, env, c, a, TaskIdOf(b));
      }
      NoLocalFails(h, env, d.client, b, k);
    }
  }

  lemma TwoSteps(h: Hash, env: Environment, c: ClientState, a: ChunksRequest, b: ChunksRequest)
    ensures var p, first := Steps(h, env, c, [a, b]), Step(h, env, c, a);
            var second := Step(h, env, first.client, b);
            && (p.going <==> first.going && second.going)
            && p.client == if first.going then second.client else first.client
  {
    hide Step;
    NoSteps(h, env, c);
    NextStep(h, env, c, [a], 0);
    assert [a, b][..1] == [a] && [a][..1] == [a] && [a][..0] == [];
  }

  lemma StepKeepsMarks(h: Hash, env: Environment, c: ClientState, q: ChunksRequest, id: TaskId)
    requires id != TaskIdOf(q)
    ensures MarksOf(Step(h, env, c, q).client.disk, id) == MarksOf(c.disk, id)
  {
    hide Trace, I.Upsert, Refreshed, LocalAt;
    if Found(env, q).Some? {
      var job := JobOf(h, env, c.index, Found(env, q).value, q);
      AttemptKeepsMarks(h, c.disk, job, id);
      assert After(h, c.disk, job) in Trace(h, c.disk, job);
    }
  }

  lemma RowMoves(h: Hash, env: Environment, c: ClientState, q: ChunksRequest, path: Path)
    requires I.Valid(c.index) && Step(h, env, c, q).going && path != PathOf(env.root, q.relativePath)
    requires I.IdAt(c.index, path) == Some(Found(env, q).value.summary.rootHash)
    ensures LocalAt(Step(h, env, c, q).client.index, path).None?
  {
    var job := JobOf(h, env, c.index, Found(env, q).value, q);
    hide Trace, I.Upsert, LocalAt, I.Valid;
    RowAfter(h, c.disk, job);
    var f := Refreshed(h, env, q, After(h, c.disk, job).files[job.path]);
    I.OtherPathAfter(c.index, f, path);
    FetchedIsLocal(I.Upsert(c.index, f).value, path, None);
  }
}
