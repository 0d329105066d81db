/** ChunkReader: a slice of a file, handed out only if it has the expected hash. */
module ChunkReader {
  import opened Base
  import opened Chunks
  import opened Hasher
  import A = Attempt

  /** content: the file, or None if it cannot be opened. */
  method ReadAndVerify(content: Option<Bytes>, c: ChunkEntry) returns (r: Option<Bytes>)
    requires Hashable(c.size)
    ensures r.Some? <==>
              content.Some? && (c.size == 0 || InFile(c, content.value))
              && MD5HEX(if c.size == 0 then [] else Slice(c, content.value)) == c.hash
    ensures r.Some? ==> r.value == if c.size == 0 then [] else Slice(c, content.value)
  {
    hide Md5Hasher.Valid, Md5Hasher.Fed;
    if content.None? {
      return None;
    }
    var bytes := [];
    if c.size > 0 {
      if !InFile(c, content.value) {
        return None;  // short read
      }
      bytes := Slice(c, content.value);
    }
    var hasher := new Md5Hasher();
    if bytes != [] {
      hasher.UpdateAll(bytes);
      assert [] + bytes == bytes;
    }
    var hex := hasher.FinalHex();
    r := if hex == c.hash then Some(bytes) else None;
  }

  /** The reader of a path agrees with the specification used for attempts. */
  method ReadFile(files: map<Path, Bytes>, path: Path, c: ChunkEntry) returns (r: Option<Bytes>)
    requires Hashable(c.size)
    ensures r == A.ReadAndVerify(MD5HEX, files, path, c)
  {
    r := ReadAndVerify(if path in files then Some(files[path]) else None, c);
  }
}
