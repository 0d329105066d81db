/** Where the bytes of a chunk come from. */
module Supplies {
  import opened Base
  import opened Chunks
  import opened Attempt

  /** The chunk found is the first with its index; nothing is found only if there is none. */
  lemma {:induction false} LookupIsFirst(chunks: seq<ChunkEntry>, index: nat)
    ensures Lookup(chunks, index).None? <==> forall c | c in chunks :: c.index != index
    ensures Lookup(chunks, index).Some? ==>
              exists k :: 0 <= k < |chunks| && chunks[k] == Lookup(chunks, index).value
                          && forall j | 0 <= j < k :: chunks[j].index != index
  {
    if chunks != [] {
      LookupIsFirst(chunks[1..], index);
      if chunks[0].index != index && Lookup(chunks[1..], index).Some? {
        var k :| 0 <= k < |chunks[1..]| && chunks[1..][k] == Lookup(chunks[1..], index).value
                 && forall j | 0 <= j < k :: chunks[1..][j].index != index;
        assert chunks[k + 1] == chunks[1..][k];
        assert forall j | 0 < j < k + 1 :: chunks[j] == chunks[1..][j - 1];
      }
    }
  }

  /** Of several frames for one chunk the first is kept; every frame taken is a chunk frame. */
  lemma {:induction false} CollectKeepsFirst(replies: seq<Reply>, n: nat)
    requires Collect(replies, n).Some?
    ensures n <= |replies| && forall i | 0 <= i < n :: replies[i].Data?
    ensures forall i | 0 <= i < n :: replies[i].index in Collect(replies, n).value
    ensures forall i | 0 <= i < n && (forall j | 0 <= j < i :: replies[j].index != replies[i].index) ::
              Collect(replies, n).value[replies[i].index] == replies[i].bytes
  {
    if n > 0 {
      CollectKeepsFirst(replies, n - 1);
      var before, r := Collect(replies, n - 1).value, replies[n - 1];
      if r.index in before {
        CollectedAmong(replies, n - 1, r.index);
      }
    }
  }

  lemma {:induction false} CollectedAmong(replies: seq<Reply>, n: nat, index: nat)
    requires Collect(replies, n).Some? && index in Collect(replies, n).value
    ensures n <= |replies| && exists j :: 0 <= j < n && replies[j].Data? && replies[j].index == index
  {
    if n > 0 && index in Collect(replies, n - 1).value {
      CollectedAmong(replies, n - 1, index);
    }
  }

  /** The file has the bytes of the chunk, and they have its hash; an empty chunk is in every file that is there. */
  ghost predicate HasBytes(h: Hash, files: map<Path, Bytes>, path: Path, c: ChunkEntry, bytes: Bytes) {
    && path in files && h(bytes) == c.hash && |bytes| == c.size
    && (c.size == 0 || (c.offset + c.size <= |files[path]| && bytes == files[path][c.offset..c.offset + c.size]))
  }

  /** A read gives bytes if and only if the file has them for the chunk. */
  lemma ReadIsExact(h: Hash, files: map<Path, Bytes>, path: Path, c: ChunkEntry, bytes: Bytes)
    ensures ReadAndVerify(h, files, path, c) == Some(bytes) <==> HasBytes(h, files, path, c, bytes)
  {
    assert c.size == 0 && |bytes| == 0 ==> bytes == [];
  }

  /**
   Where the bytes of a chunk come from: for a chunk that was asked for, from the server and nowhere else; for any other,
   from the local file, and only if the first local chunk of its index has its hash and size.
   */
  lemma SupplyIsExact(h: Hash, s: Disk, job: Job, m: Memory, c: ChunkEntry, bytes: Bytes)
    ensures Supply(h, s, job, m, c) == Some(bytes) <==>
              if c.index in m.wanted then c.index in m.received && m.received[c.index] == bytes
              else
                && HasBytes(h, s.files, job.path, c, bytes) && job.local.Some?
                && exists k :: 0 <= k < |job.local.value| && TwinAt(job.local.value, c, k)
  {
    ReadIsExact(h, s.files, job.path, c, bytes);
    hide ReadAndVerify, HasBytes;
    if job.local.Some? {
      var local := job.local.value;
      LookupIsFirst(local, c.index);
      if k :| 0 <= k < |local| && TwinAt(local, c, k) {
        var l := Lookup(local, c.index).value;
        var k' :| 0 <= k' < |local| && local[k'] == l && forall j | 0 <= j < k' :: local[j].index != c.index;
        assert k == k';
      }
      if l :| Lookup(local, c.index) == Some(l) && l.hash == c.hash && l.size == c.size {
        var k :| 0 <= k < |local| && local[k] == l && forall j | 0 <= j < k :: local[j].index != c.index;
        assert TwinAt(local, c, k);
      }
    }
  }

  /** The first chunk of c's index is at k, and has its hash and size. */
  predicate TwinAt(chunks: seq<ChunkEntry>, c: ChunkEntry, k: nat) {
    && k < |chunks| && chunks[k].index == c.index && chunks[k].hash == c.hash && chunks[k].size == c.size
    && forall j | 0 <= j < k :: chunks[j].index != c.index
  }
}
