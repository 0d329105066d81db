/** Chunk lists: what the chunker yields for a file, and how a chunk list tiles a file. */
module Chunks {
  import opened Base

  type Hash = Bytes -> Str
  type Path = Str

  /** One chunk of a file: a ChunkRecord without its copy of the file id, or a ChunkManifestEntry. */
  datatype ChunkEntry = ChunkEntry(index: nat, offset: nat, size: nat, hash: Str)

  datatype FileRecord = FileRecord(
    fileId: Str, relativePath: Path, absolutePath: Path, size: nat, mtime: nat, mode: nat, rootHash: Str,
    chunks: seq<ChunkEntry>)

  /** The bytes a chunk names in a file, where the file has them. */
  predicate InFile(c: ChunkEntry, content: Bytes) {
    c.offset + c.size <= |content|
  }

  function Slice(c: ChunkEntry, content: Bytes): (b: Bytes)
    requires InFile(c, content)
    ensures |b| == c.size
  {
    content[c.offset..c.offset + c.size]
  }

  /** The sizes of the first n chunks, added. */
  function SizeOf(chunks: seq<ChunkEntry>, n: nat): (s: nat)
    requires n <= |chunks|
  {
    if n == 0 then 0 else SizeOf(chunks, n - 1) + chunks[n - 1].size
  }

  /** Chunk i carries its own position, starts where the chunks before it end, and has the hash of its bytes. */
  ghost predicate TileAt(h: Hash, chunks: seq<ChunkEntry>, content: Bytes, i: nat)
    requires i < |chunks|
  {
    && chunks[i].index == i && chunks[i].offset == SizeOf(chunks, i) && chunks[i].size > 0
    && InFile(chunks[i], content) && chunks[i].hash == h(Slice(chunks[i], content))
  }

  /** chunks cuts content into consecutive non-empty slices, numbered from 0, each with its hash. */
  ghost predicate Tiles(h: Hash, chunks: seq<ChunkEntry>, content: Bytes) {
    && (forall i {:trigger TileAt(h, chunks, content, i)} | 0 <= i < |chunks| :: TileAt(h, chunks, content, i))
    && SizeOf(chunks, |chunks|) == |content|
  }

  lemma {:induction false} SizeOfMonotone(chunks: seq<ChunkEntry>, m: nat, n: nat)
    requires m <= n <= |chunks|
    ensures SizeOf(chunks, m) <= SizeOf(chunks, n)
  {
    if m < n {
      SizeOfMonotone(chunks, m, n - 1);
    }
  }

  lemma TilesBounds(h: Hash, chunks: seq<ChunkEntry>, content: Bytes, n: nat)
    requires Tiles(h, chunks, content) && n <= |chunks|
    ensures SizeOf(chunks, n) <= |content|
    ensures SizeOf(chunks, n) == 0 <==> n == 0
    ensures n < |chunks| ==> SizeOf(chunks, n) < |content|
  {
    SizeOfMonotone(chunks, n, |chunks|);
    SizeOfMonotone(chunks, 0, n);
    assert n > 0 ==> TileAt(h, chunks, content, n - 1);
    assert n < |chunks| ==> TileAt(h, chunks, content, n);
  }

  /** Chunk n continues the file where the chunks before it end. */
  lemma TilesNext(h: Hash, chunks: seq<ChunkEntry>, content: Bytes, n: nat)
    requires Tiles(h, chunks, content) && n < |chunks|
    ensures SizeOf(chunks, n + 1) <= |content| && InFile(chunks[n], content)
    ensures content[..SizeOf(chunks, n)] + Slice(chunks[n], content) == content[..SizeOf(chunks, n + 1)]
  {
    TilesBounds(h, chunks, content, n + 1);
    assert TileAt(h, chunks, content, n);
    var c, o := chunks[n], SizeOf(chunks, n);
    assert content[..o] + content[o..o + c.size] == content[..o + c.size];
  }

  // ---------- The chunker's output as a function of the file ----------

  function ChunkCount(length: nat, chunkSize: nat): (n: nat)
  {
    if chunkSize == 0 then 0 else (length + chunkSize - 1) / chunkSize
  }

  /** Chunk i of a file cut every chunkSize bytes; the index is a 32-bit counter. */
  function ChunkAt(h: Hash, content: Bytes, chunkSize: nat, i: nat): ChunkEntry {
    var offset := i * chunkSize;
    if offset > |content| then ChunkEntry(0, 0, 0, [])
    else
      var size := Min(chunkSize, |content| - offset);
      ChunkEntry(i % TWO_32, offset, size, h(content[offset..offset + size]))
  }

  function Cut(h: Hash, content: Bytes, chunkSize: nat): (chunks: seq<ChunkEntry>)
    ensures |chunks| == ChunkCount(|content|, chunkSize)
  {
    seq(ChunkCount(|content|, chunkSize), i requires i >= 0 => ChunkAt(h, content, chunkSize, i))
  }

  lemma MulMonotone(a: nat, b: nat, c: nat)
    requires a <= b
    ensures a * c <= b * c
  {
    assert (b - a) * c >= 0;
  }

  lemma CountBounds(length: nat, chunkSize: nat, i: nat)
    requires chunkSize > 0
    ensures i < ChunkCount(length, chunkSize) <==> i * chunkSize < length
    ensures ChunkCount(length, chunkSize) * chunkSize >= length
  {
    var n := ChunkCount(length, chunkSize);
    assert n * chunkSize + (length + chunkSize - 1) % chunkSize == length + chunkSize - 1;
    if i < n {
      MulMonotone(i + 1, n, chunkSize);
      assert (i + 1) * chunkSize == i * chunkSize + chunkSize;
    } else {
      MulMonotone(n, i, chunkSize);
    }
  }

  /** One step of the chunker's loop: where chunk i starts and ends, and its entry. */
  lemma CutStep(h: Hash, content: Bytes, chunkSize: nat, i: nat)
    requires chunkSize > 0 && i * chunkSize < |content|
    ensures var offset := i * chunkSize;
            var size := Min(chunkSize, |content| - offset);
            && i < ChunkCount(|content|, chunkSize)
            && offset + size == Min((i + 1) * chunkSize, |content|)
            && Cut(h, content, chunkSize)[..i + 1] == Cut(h, content, chunkSize)[..i]
                 + [ChunkEntry(i % TWO_32, offset, size, h(content[offset..offset + size]))]
  {
    CountBounds(|content|, chunkSize, i);
    assert i * chunkSize + chunkSize == (i + 1) * chunkSize;
  }

  lemma IndexStep(i: nat)
    ensures (i % TWO_32 + 1) % TWO_32 == (i + 1) % TWO_32
  {
    assert i == TWO_32 * (i / TWO_32) + i % TWO_32;
  }

  lemma CutIndexed(h: Hash, content: Bytes, chunkSize: nat, i: nat)
    requires i < ChunkCount(|content|, chunkSize)
    ensures Cut(h, content, chunkSize)[i] == ChunkAt(h, content, chunkSize, i)
  {
  }

  lemma CutIndex(h: Hash, content: Bytes, chunkSize: nat, i: nat)
    requires i < ChunkCount(|content|, chunkSize) <= TWO_32
    ensures ChunkAt(h, content, chunkSize, i).index == i
  {
    CountBounds(|content|, chunkSize, i);
  }

  lemma CutIsNarrow(h: Hash, content: Bytes, chunkSize: nat)
    ensures forall c | c in Cut(h, content, chunkSize) :: c.index < TWO_32
  {
  }

  lemma ChunkEnds(h: Hash, content: Bytes, chunkSize: nat, i: nat)
    requires i * chunkSize < |content|
    ensures i * chunkSize + ChunkAt(h, content, chunkSize, i).size == Min((i + 1) * chunkSize, |content|)
  {
    assert i * chunkSize + chunkSize == (i + 1) * chunkSize;
  }

  /** Every chunk but the last is full, so the sizes before chunk n add up to n * chunkSize. */
  lemma {:induction false} CutSizes(h: Hash, content: Bytes, chunkSize: nat, n: nat)
    requires chunkSize > 0 && n <= ChunkCount(|content|, chunkSize)
    ensures SizeOf(Cut(h, content, chunkSize), n) == Min(n * chunkSize, |content|)
  {
    hide Cut, ChunkCount, ChunkAt;
    if n > 0 {
      CutSizes(h, content, chunkSize, n - 1);
      CountBounds(|content|, chunkSize, n - 1);
      ChunkEnds(h, content, chunkSize, n - 1);
      CutIndexed(h, content, chunkSize, n - 1);
    }
  }

  /** The chunker tiles every file, for every positive chunk size, up to 2^32 chunks. */
  lemma CutTiles(h: Hash, content: Bytes, chunkSize: nat)
    requires chunkSize > 0 && ChunkCount(|content|, chunkSize) <= TWO_32
    ensures Tiles(h, Cut(h, content, chunkSize), content)
  {
    var chunks := Cut(h, content, chunkSize);
    forall i | 0 <= i < |chunks|
      ensures TileAt(h, chunks, content, i)
    {
      CountBounds(|content|, chunkSize, i);
      CutSizes(h, content, chunkSize, i);
    }
    CutSizes(h, content, chunkSize, |chunks|);
    CountBounds(|content|, chunkSize, |chunks|);
  }

  /** Two files cut with one chunk size: equal index and size put a chunk at the same offset of both. */
  lemma IndexAndSizeFixOffset(h: Hash, a: Bytes, b: Bytes, chunkSize: nat, i: nat)
    requires i < ChunkCount(|a|, chunkSize) && i < ChunkCount(|b|, chunkSize)
    requires ChunkAt(h, a, chunkSize, i).size == ChunkAt(h, b, chunkSize, i).size
    ensures ChunkAt(h, a, chunkSize, i).offset == ChunkAt(h, b, chunkSize, i).offset
    ensures InFile(ChunkAt(h, b, chunkSize, i), a)
    ensures ChunkAt(h, a, chunkSize, i).hash == h(Slice(ChunkAt(h, b, chunkSize, i), a))
  {
    CountBounds(|a|, chunkSize, i);
    CountBounds(|b|, chunkSize, i);
  }
}
