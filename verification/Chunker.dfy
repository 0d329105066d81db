/** Chunker: the read loop that cuts and hashes a file. */
module Chunker {
  import opened Base
  import opened Hasher
  import opened Chunks

  class Chunker {
    const chunkSize: nat  // options_.chunk_size
    const hasher: Md5Hasher

    ghost predicate Valid()
      reads this, hasher, hasher.ctx, hasher.ctx.state, hasher.ctx.buffer
    {
      Hashable(chunkSize) && hasher.Valid()
    }

    constructor (chunkSize: nat)
      requires Hashable(chunkSize)
      ensures Valid() && this.chunkSize == chunkSize && fresh(hasher.Repr())
    {
      this.chunkSize := chunkSize;
      hasher := new Md5Hasher();
    }

    method HashBuffer(data: Bytes) returns (hash: Str)
      requires Valid() && Hashable(|data|)
      modifies hasher.Repr()
      ensures Valid() && hash == MD5HEX(data)
    {
      hasher.Reset();
      hasher.UpdateAll(data);
      hash := hasher.FinalHex();
      assert [] + data == data;
    }

    /** content is what the file holds; the stream's read() takes up to chunkSize bytes a time. */
    method BuildFileRecord(content: Bytes, absolutePath: Path, relativePath: Path, mtime: nat) returns (file: FileRecord)
      requires Valid()
      modifies hasher.Repr()
      ensures Valid()
      ensures file.absolutePath == absolutePath && file.relativePath == relativePath
      ensures file.size == |content| && file.mtime == mtime && file.mode == 0
      ensures file.chunks == Cut(MD5HEX, content, chunkSize)
      ensures file.rootHash == file.fileId == MD5HEX(if chunkSize > 0 then content else [])
    {
      var chunks, rootHash := ReadChunks(content);
      file := FileRecord(rootHash, relativePath, absolutePath, |content|, mtime, 0, rootHash, chunks);
    }

    method ReadChunks(content: Bytes) returns (chunks: seq<ChunkEntry>, rootHash: Str)
      requires Valid()
      modifies hasher.Repr()
      ensures Valid()
      ensures chunks == Cut(MD5HEX, content, chunkSize)
      ensures rootHash == MD5HEX(if chunkSize > 0 then content else [])
    {
      hide Md5Hasher.Valid, Md5Hasher.Fed, Cut, ChunkAt;
      var fileHasher := new Md5Hasher();
      if chunkSize == 0 {
        rootHash := fileHasher.FinalHex();
        return [], rootHash;
      }
      ghost var all, n := Cut(MD5HEX, content, chunkSize), 0;
      var offset, index, good := 0, 0, true;
      chunks := [];
      while good
        invariant Valid() && fileHasher.Valid() && fresh(fileHasher.Repr())
        invariant offset == Min(n * chunkSize, |content|) && index == n % TWO_32
        invariant fileHasher.Fed() == content[..offset]
        invariant n <= |all| && chunks == all[..n]
        invariant !good ==> offset == |content|
        decreases good, |content| - offset
      {
        var readCount := Min(chunkSize, |content| - offset);
        if readCount == 0 {
          break;
        }
        CutStep(MD5HEX, content, chunkSize, n);
        IndexStep(n);
        var buffer := content[offset..offset + readCount];
        var hash := HashBuffer(buffer);
        chunks := chunks + [ChunkEntry(index, offset, readCount, hash)];
        index := (index + 1) % TWO_32;
        fileHasher.UpdateAll(buffer);
        assert content[..offset] + buffer == content[..offset + readCount];
        offset, n := offset + readCount, n + 1;
        good := readCount == chunkSize;
      }
      CountBounds(|content|, chunkSize, n);
      assert content[..offset] == content && all[..n] == all;
      rootHash := fileHasher.FinalHex();
    }
  }
}
