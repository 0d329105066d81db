/** DiffEngine: the manifest of a file list, and the comparison that decides what to request. */
module Diff {
  import opened Base
  import opened Chunks
  import opened Attempt

  datatype ManifestEntry = ManifestEntry(
    fileId: Str, relativePath: Path, rootHash: Str, size: nat, mtime: nat, chunkCount: nat)

  datatype ManifestFile = ManifestFile(summary: ManifestEntry, chunks: seq<ChunkEntry>)

  datatype ChunksRequest = ChunksRequest(
    fileId: Str, relativePath: Path, expectedRootHash: Str, missing: seq<ChunkEntry>)

  datatype DiffResult = DiffResult(
    identical: seq<ManifestEntry>, missingFiles: seq<ManifestEntry>, requests: seq<ChunksRequest>)

  // ---------- BuildManifest ----------

  function ManifestOf(file: FileRecord): ManifestFile {
    ManifestFile(
      ManifestEntry(file.fileId, file.relativePath, file.rootHash, file.size, file.mtime, |file.chunks| % TWO_32),
      file.chunks)
  }

  method BuildManifest(files: seq<FileRecord>) returns (manifest: seq<ManifestFile>)
    ensures |manifest| == |files| && forall i | 0 <= i < |files| :: manifest[i] == ManifestOf(files[i])
    ensures forall i | 0 <= i < |files| ::
              var s := manifest[i].summary;
              && s.fileId == files[i].fileId && s.relativePath == files[i].relativePath && s.rootHash == files[i].rootHash
              && s.size == files[i].size && s.mtime == files[i].mtime && s.chunkCount == |files[i].chunks| % TWO_32
              && manifest[i].chunks == files[i].chunks
  {
    manifest := [];
    for i := 0 to |files|
      invariant |manifest| == i && forall j | 0 <= j < i :: manifest[j] == ManifestOf(files[j])
    {
      manifest := manifest + [ManifestOf(files[i])];
    }
  }

  // ---------- Compare, as a function ----------

  /** The first record of this relative path, as unordered_map::emplace keeps it. */
  function FirstAt(files: seq<FileRecord>, path: Path): (r: Option<FileRecord>)
    ensures r.Some? ==> r.value in files && r.value.relativePath == path
    ensures r.None? ==> forall f | f in files :: f.relativePath != path
  {
    if files == [] then None
    else if files[0].relativePath == path then Some(files[0])
    else FirstAt(files[1..], path)
  }

  /** The local chunk of the same index has the same hash and size. */
  predicate HasChunk(local: seq<ChunkEntry>, c: ChunkEntry) {
    var l := Lookup(local, c.index);
    l.Some? && l.value.hash == c.hash && l.value.size == c.size
  }

  function Differing(local: seq<ChunkEntry>, remote: seq<ChunkEntry>): (d: seq<ChunkEntry>)
    ensures forall c :: c in d <==> c in remote && !HasChunk(local, c)
  {
    if remote == [] then []
    else
      var c, rest := remote[|remote| - 1], Differing(local, remote[..|remote| - 1]);
      assert remote == remote[..|remote| - 1] + [c];
      if HasChunk(local, c) then rest else rest + [c]
  }

  /** What is requested of a file that differs: the differing chunks, or all of them if there are none. */
  function MissingOf(local: Option<seq<ChunkEntry>>, remote: seq<ChunkEntry>): seq<ChunkEntry> {
    if local.None? then remote
    else
      var d := Differing(local.value, remote);
      if d == [] then remote else d
  }

  predicate Identical(files: seq<FileRecord>, remote: ManifestFile) {
    var local := FirstAt(files, remote.summary.relativePath);
    local.Some? && local.value.rootHash == remote.summary.rootHash
  }

  function ChunksAt(files: seq<FileRecord>, path: Path): Option<seq<ChunkEntry>> {
    var local := FirstAt(files, path);
    if local.None? then None else Some(local.value.chunks)
  }

  function RequestFor(files: seq<FileRecord>, remote: ManifestFile): ChunksRequest {
    ChunksRequest(remote.summary.fileId, remote.summary.relativePath, remote.summary.rootHash,
                  MissingOf(ChunksAt(files, remote.summary.relativePath), remote.chunks))
  }

  /** The manifest files that are, or are not, identical to the local record, in manifest order. */
  function Select(files: seq<FileRecord>, manifest: seq<ManifestFile>, identical: bool): (s: seq<ManifestFile>)
    ensures forall f :: f in s <==> f in manifest && Identical(files, f) == identical
  {
    if manifest == [] then []
    else
      var f, rest := manifest[|manifest| - 1], Select(files, manifest[..|manifest| - 1], identical);
      assert manifest == manifest[..|manifest| - 1] + [f];
      if Identical(files, f) == identical then rest + [f] else rest
  }

  function Absent(files: seq<FileRecord>, manifest: seq<ManifestFile>): seq<ManifestEntry> {
    if manifest == [] then []
    else
      var f, rest := manifest[|manifest| - 1], Absent(files, manifest[..|manifest| - 1]);
      if FirstAt(files, f.summary.relativePath).None? then rest + [f.summary] else rest
  }

  function Compared(files: seq<FileRecord>, manifest: seq<ManifestFile>): DiffResult {
    var same, other := Select(files, manifest, true), Select(files, manifest, false);
    DiffResult(
      seq(|same|, i requires 0 <= i < |same| => same[i].summary),
      Absent(files, manifest),
      seq(|other|, i requires 0 <= i < |other| => RequestFor(files, other[i])))
  }

  /** Every manifest file is either identical or requested, once. */
  lemma {:induction false} ComparePartitions(files: seq<FileRecord>, manifest: seq<ManifestFile>)
    ensures multiset(Select(files, manifest, true)) + multiset(Select(files, manifest, false)) == multiset(manifest)
    ensures |Compared(files, manifest).identical| + |Compared(files, manifest).requests| == |manifest|
  {
    if manifest != [] {
      var front, f := manifest[..|manifest| - 1], manifest[|manifest| - 1];
      ComparePartitions(files, front);
      assert manifest == front + [f];
    }
  }

  /** s is what is left of t after leaving some elements out. */
  predicate Subsequence<T(==)>(s: seq<T>, t: seq<T>) {
    if s == [] then true
    else if t == [] then false
    else if s[|s| - 1] == t[|t| - 1] then Subsequence(s[..|s| - 1], t[..|t| - 1])
    else Subsequence(s, t[..|t| - 1])
  }

  lemma {:induction false} SubsequenceSkips<T>(s: seq<T>, t: seq<T>, x: T)
    requires Subsequence(s, t)
    ensures Subsequence(s, t + [x]) && Subsequence(s + [x], t + [x])
    decreases |t|, 1
  {
    assert (t + [x])[..|t|] == t && (s + [x])[..|s|] == s;
    if s != [] && s[|s| - 1] == x {
      SubsequenceDrops(s, t);
    }
  }

  lemma {:induction false} SubsequenceDrops<T>(s: seq<T>, t: seq<T>)
    requires Subsequence(s, t) && s != []
    ensures Subsequence(s[..|s| - 1], t)
    decreases |t|, 0
  {
    if s[|s| - 1] == t[|t| - 1] {
      var s', t' := s[..|s| - 1], t[..|t| - 1];
      SubsequenceSkips(s', t', t[|t| - 1]);
      assert t' + [t[|t| - 1]] == t;
    } else {
      SubsequenceDrops(s, t[..|t| - 1]);
      SubsequenceSkips(s[..|s| - 1], t[..|t| - 1], t[|t| - 1]);
      assert t[..|t| - 1] + [t[|t| - 1]] == t;
    }
  }

  lemma {:induction false} SubsequenceSelf<T>(s: seq<T>)
    ensures Subsequence(s, s)
  {
    if s != [] {
      SubsequenceSelf(s[..|s| - 1]);
    }
  }

  lemma {:induction false} DifferingInOrder(local: seq<ChunkEntry>, remote: seq<ChunkEntry>)
    ensures Subsequence(Differing(local, remote), remote)
  {
    hide HasChunk;
    if remote != [] {
      var front := remote[..|remote| - 1];
      DifferingInOrder(local, front);
      SubsequenceSkips(Differing(local, front), front, remote[|remote| - 1]);
      assert front + [remote[|remote| - 1]] == remote;
    }
  }

  lemma {:induction false} SelectInOrder(files: seq<FileRecord>, manifest: seq<ManifestFile>, identical: bool)
    ensures Subsequence(Select(files, manifest, identical), manifest)
  {
    if manifest != [] {
      var front := manifest[..|manifest| - 1];
      SelectInOrder(files, front, identical);
      SubsequenceSkips(Select(files, front, identical), front, manifest[|manifest| - 1]);
      assert front + [manifest[|manifest| - 1]] == manifest;
    }
  }

  /**
   What a request leaves out, and what it keeps: an ordered part of the remote chunks; a chunk left out has a local
   chunk of equal index, hash and size; and if no chunk differs the whole list is asked for, even when it is empty.
   */
  lemma RequestIsExact(local: Option<seq<ChunkEntry>>, remote: seq<ChunkEntry>)
    ensures Subsequence(MissingOf(local, remote), remote)
    ensures forall c | c in remote && c !in MissingOf(local, remote) :: local.Some? && HasChunk(local.value, c)
    ensures local.None? || (forall c | c in remote :: HasChunk(local.value, c)) ==> MissingOf(local, remote) == remote
    ensures local.Some? && (exists c :: c in remote && !HasChunk(local.value, c)) ==>
              forall c | c in MissingOf(local, remote) :: !HasChunk(local.value, c)
  {
    SubsequenceSelf(remote);
    if local.Some? {
      DifferingInOrder(local.value, remote);
      var d := Differing(local.value, remote);
      if d != [] {
        assert d[0] in d;
      }
      if c :| c in remote && !HasChunk(local.value, c) {
        assert c in d;
      }
    }
  }

  // ---------- Compare, as the code runs it ----------

  lemma {:induction false} FirstAtSnoc(files: seq<FileRecord>, f: FileRecord, path: Path)
    ensures FirstAt(files + [f], path)
         == if FirstAt(files, path).Some? then FirstAt(files, path)
            else if f.relativePath == path then Some(f) else None
  {
    if files != [] {
      assert (files + [f])[1..] == files[1..] + [f];
      FirstAtSnoc(files[1..], f, path);
    }
  }

  lemma {:induction false} LookupSnoc(chunks: seq<ChunkEntry>, c: ChunkEntry, index: nat)
    ensures Lookup(chunks + [c], index)
         == if Lookup(chunks, index).Some? then Lookup(chunks, index)
            else if c.index == index then Some(c) else None
  {
    if chunks != [] {
      assert (chunks + [c])[1..] == chunks[1..] + [c];
      LookupSnoc(chunks[1..], c, index);
    }
  }

  method IndexFiles(files: seq<FileRecord>) returns (byPath: map<Path, FileRecord>)
    ensures forall p :: FirstAt(files, p) == if p in byPath then Some(byPath[p]) else None
  {
    byPath := map[];
    for i := 0 to |files|
      invariant forall p :: FirstAt(files[..i], p) == if p in byPath then Some(byPath[p]) else None
    {
      assert files[..i + 1] == files[..i] + [files[i]];
      forall p {
        FirstAtSnoc(files[..i], files[i], p);
      }
      if files[i].relativePath !in byPath {
        byPath := byPath[files[i].relativePath := files[i]];
      }
    }
    assert files[..|files|] == files;
  }

  method IndexChunks(chunks: seq<ChunkEntry>) returns (byIndex: map<nat, ChunkEntry>)
    ensures forall i: nat :: Lookup(chunks, i) == if i in byIndex then Some(byIndex[i]) else None
  {
    byIndex := map[];
    for k := 0 to |chunks|
      invariant forall i: nat :: Lookup(chunks[..k], i) == if i in byIndex then Some(byIndex[i]) else None
    {
      assert chunks[..k + 1] == chunks[..k] + [chunks[k]];
      forall i: nat {
        LookupSnoc(chunks[..k], chunks[k], i);
      }
      if chunks[k].index !in byIndex {
        byIndex := byIndex[chunks[k].index := chunks[k]];
      }
    }
    assert chunks[..|chunks|] == chunks;
  }

  method CollectDiffering(local: seq<ChunkEntry>, remote: seq<ChunkEntry>) returns (missing: seq<ChunkEntry>)
    ensures missing == Differing(local, remote)
  {
    var byIndex := IndexChunks(local);
    missing := [];
    for k := 0 to |remote|
      invariant missing == Differing(local, remote[..k])
    {
      var c := remote[k];
      assert remote[..k + 1][..k] == remote[..k] && remote[..k + 1][k] == c;
      assert Lookup(local, c.index) == if c.index in byIndex then Some(byIndex[c.index]) else None;
      if c.index !in byIndex || byIndex[c.index].hash != c.hash || byIndex[c.index].size != c.size {
        missing := missing + [c];
      }
    }
    assert remote[..|remote|] == remote;
  }

  /** Compared, one manifest file further. */
  lemma ComparedNext(files: seq<FileRecord>, manifest: seq<ManifestFile>, f: ManifestFile)
    ensures var before, after := Compared(files, manifest), Compared(files, manifest + [f]);
            && after.identical == before.identical + (if Identical(files, f) then [f.summary] else [])
            && after.missingFiles == before.missingFiles
                 + (if FirstAt(files, f.summary.relativePath).None? then [f.summary] else [])
            && after.requests == before.requests + (if Identical(files, f) then [] else [RequestFor(files, f)])
  {
    assert (manifest + [f])[..|manifest|] == manifest;
  }

  method Compare(files: seq<FileRecord>, manifest: seq<ManifestFile>) returns (result: DiffResult)
    ensures result == Compared(files, manifest)
  {
    var byPath := IndexFiles(files);
    result := DiffResult([], [], []);
    for i := 0 to |manifest|
      invariant result == Compared(files, manifest[..i])
    {
      var remote := manifest[i];
      var summary := remote.summary;
      assert manifest[..i + 1] == manifest[..i] + [remote];
      ComparedNext(files, manifest[..i], remote);
      var request := ChunksRequest(summary.fileId, summary.relativePath, summary.rootHash, []);
      if summary.relativePath !in byPath {
        result := DiffResult(result.identical, result.missingFiles + [summary],
                             result.requests + [request.(missing := remote.chunks)]);
      } else {
        var local := byPath[summary.relativePath];
        if local.rootHash == summary.rootHash {
          result := result.(identical := result.identical + [summary]);
        } else {
          var missing := CollectDiffering(local.chunks, remote.chunks);
          if missing != [] {
            request := request.(missing := missing);
          } else {
            request := request.(missing := remote.chunks);
          }
          result := result.(requests := result.requests + [request]);
        }
      }
    }
    assert manifest[..|manifest|] == manifest;
  }

  /** The record taken for a path is the first one of that path. */
  lemma {:induction false} FirstAtIsFirst(files: seq<FileRecord>, path: Path)
    ensures FirstAt(files, path).Some? ==>
              exists k :: 0 <= k < |files| && files[k] == FirstAt(files, path).value
                          && forall j | 0 <= j < k :: files[j].relativePath != path
  {
    if files != [] && files[0].relativePath != path && FirstAt(files, path).Some? {
      FirstAtIsFirst(files[1..], path);
      var k :| 0 <= k < |files[1..]| && files[1..][k] == FirstAt(files[1..], path).value
               && forall j | 0 <= j < k :: files[1..][j].relativePath != path;
      assert files[k + 1] == files[1..][k];
      assert forall j | 0 < j < k + 1 :: files[j] == files[1..][j - 1];
    }
  }

  /** What a resumed attempt asks for keeps the order of the request. */
  lemma {:induction false} TrimInOrder(missing: seq<ChunkEntry>, prefix: nat)
    ensures Subsequence(Trim(missing, prefix), missing)
    ensures multiset(Trim(missing, prefix)) <= multiset(missing)
    ensures forall c | c in missing && c.index >= prefix ::
              multiset(Trim(missing, prefix))[c] == multiset(missing)[c]
  {
    if missing != [] {
      var front, c := missing[..|missing| - 1], missing[|missing| - 1];
      TrimInOrder(front, prefix);
      assert missing == front + [c];
      SubsequenceSkips(Trim(front, prefix), front, c);
    }
  }
}
