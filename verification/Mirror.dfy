/** The mirror backend, the backup loop and the restore, run on real MD5 and proved against MirrorRules. */
module Mirror {
  import opened Base
  import opened Chunks
  import opened Hasher
  import B = BackupLaws
  import Chunker
  import I = FileIndex
  import M = MirrorRules

  const CHUNK_SIZE: nat := 4 * 1024 * 1024

  class MirrorSite {
    const root: Path
    var s: M.Site

    constructor (root: Path)
      ensures this.root == root && s == M.EMPTY
    {
      this.root := root;
      s := M.EMPTY;
    }

    /** Builds the record of what a path holds now. */
    method Rebuild(path: Path) returns (record: FileRecord)
      requires path in s.files
      ensures record.rootHash == MD5HEX(s.files[path])
    {
      hide Chunker.Chunker.Valid, Cut;
      var chunker := new Chunker.Chunker(CHUNK_SIZE);
      record := chunker.BuildFileRecord(s.files[path], path, path, 0);
    }

    method VerifyFile(f: FileRecord, path: Path) returns (ok: bool)
      ensures ok <==> path in s.files && |s.files[path]| == f.size && MD5HEX(s.files[path]) == f.rootHash
    {
      if path !in s.files {
        return false;
      }
      if |s.files[path]| != f.size {
        return false;
      }
      var rebuilt := Rebuild(path);
      ok := rebuilt.rootHash == f.rootHash;
    }

    /** Copies the file under its key and returns the row to be stored. */
    method StoreFile(f: FileRecord, path: Path) returns (r: Result<M.Object>)
      requires path in s.files
      modifies this
      ensures r.Err? ==> M.StoreFile(old(s), root, f, path).Err? && s == old(s)
      ensures r.Ok? ==> M.StoreFile(old(s), root, f, path) == Ok(s.(stored := s.stored[f.fileId := r.value]))
    {
      if root == [] {
        return Err;
      }
      var targetDir := root + [M.SLASH] + f.fileId[..Min(2, |f.fileId|)];
      var target := targetDir + [M.SLASH] + f.fileId;
      var extension := M.Extension(path);
      if extension != [] {
        target := target + extension;
      }
      assert target == M.KeyOf(root, f.fileId, extension);
      if target == path {
        return Err;
      }
      s := s.(files := s.files[target := s.files[path]]);
      r := Ok(M.Object(target, path));
    }

    /** ExecuteBackup's loop: verify, store, record; the first failure ends it. */
    method ExecuteBackup(files: seq<FileRecord>) returns (end: M.BackupEnd)
      modifies this
      ensures (s, end) == M.BackupAll(MD5HEX, old(s), root, files)
      ensures M.Inv(MD5HEX, old(s), root) && B.FromChunker(files) && end == M.Completed ==>
                M.Inv(MD5HEX, s, root) && forall f | f in files :: B.Holds(MD5HEX, s, f)
    {
      hide M.StoreFile, M.Inv, M.FixedLength, B.Holds, B.FromChunker;
      ghost var start := s;
      for i := 0 to |files|
        invariant M.BackupAll(MD5HEX, start, root, files[..i]) == (s, M.Completed)
      {
        assert files[..i + 1][..i] == files[..i];
        var f := files[i];
        var verified := VerifyFile(f, f.absolutePath);
        if !verified {
          Stops(MD5HEX, start, root, files, i + 1);
          return M.NotVerified;
        }
        var stored := StoreFile(f, f.absolutePath);
        if stored.Err? {
          Stops(MD5HEX, start, root, files, i + 1);
          return M.NotStored;
        }
        s := s.(stored := s.stored[f.fileId := stored.value]);
      }
      assert files[..|files|] == files;
      end := M.Completed;
      Md5HasFixedLength();
      if M.Inv(MD5HEX, start, root) && B.FromChunker(files) {
        B.BackupHolds(MD5HEX, start, root, files);
      }
    }

    /** ExecuteRestore's lookups, RestoreFile, and VerifyRestoredFile, which hashes what the target then holds. */
    method ExecuteRestore(id: Str, target: Path) returns (end: M.RestoreEnd)
      modifies this
      ensures (s, end) == M.Restore(MD5HEX, old(s), id, target)
    {
      if id !in s.stored {
        return M.NoObject;
      }
      if id !in s.index.rows {
        return M.NoFileRow;
      }
      var key := s.stored[id].key;
      if key == [] || key !in s.files || key == target {
        return M.NoCopy;
      }
      s := s.(files := s.files[target := s.files[key]]);
      var restored := Rebuild(target);
      end := if restored.rootHash == s.index.rows[id].rootHash then M.Restored else M.HashMismatch;
    }
  }

  lemma {:induction false} Stops(h: Hash, s: M.Site, root: Path, files: seq<FileRecord>, k: nat)
    requires k <= |files| && M.BackupAll(h, s, root, files[..k]).1 != M.Completed
    ensures M.BackupAll(h, s, root, files) == M.BackupAll(h, s, root, files[..k])
  {
    if k < |files| {
      assert files[..|files| - 1][..k] == files[..k];
      Stops(h, s, root, files[..|files| - 1], k);
    } else {
      assert files[..k] == files;
    }
  }

  lemma Md5HasFixedLength()
    ensures M.FixedLength(MD5HEX)
  {
    forall x, y
      ensures |MD5HEX(x)| == |MD5HEX(y)|
    {
      assert MD5HEX(x) == HexDigest(x) && MD5HEX(y) == HexDigest(y);
    }
  }

  /** The law of MirrorRules for the hash the system uses. */
  lemma RestoreVerifiesMd5(root: Path, ops: seq<M.Op>, id: Str, target: Path)
    requires forall op | op in ops :: M.Allowed(root, op)
    requires id in M.After(MD5HEX, root, ops).stored && !M.InMirror(root, target)
    ensures var end := M.Restore(MD5HEX, M.After(MD5HEX, root, ops), id, target).1;
            end == if id in M.After(MD5HEX, root, ops).index.rows then M.Restored else M.NoFileRow
  {
    Md5HasFixedLength();
    M.RestoreVerifies(MD5HEX, root, ops, id, target);
  }

  // ---------- The latest backup of a path ----------

  datatype BackupRecord = BackupRecord(node: Str, relativePath: Path, fileId: Str, at: nat)

  predicate Concerns(r: BackupRecord, node: Str, path: Path) { r.node == node && r.relativePath == path }

  /** Among the first n records, k concerns the path, none concerning it is later, and none as late comes before it. */
  predicate IsLatest(records: seq<BackupRecord>, n: nat, node: Str, path: Path, k: nat)
    requires n <= |records|
  {
    && k < n && Concerns(records[k], node, path)
    && forall i | 0 <= i < n && Concerns(records[i], node, path) ::
         records[i].at <= records[k].at && (records[i].at == records[k].at ==> k <= i)
  }

  /** FindLatestBackupRecord: the first of the latest records of this node and path. */
  method FindLatestBackupRecord(records: seq<BackupRecord>, node: Str, path: Path)
    returns (latest: Option<BackupRecord>)
    ensures latest.None? <==> forall r | r in records :: !Concerns(r, node, path)
    ensures latest.Some? ==>
              exists k: nat :: IsLatest(records, |records|, node, path, k) && records[k] == latest.value
  {
    latest := None;
    ghost var k := 0;
    for i := 0 to |records|
      invariant latest.None? ==> forall j | 0 <= j < i :: !Concerns(records[j], node, path)
      invariant latest.Some? ==> IsLatest(records, i, node, path, k) && records[k] == latest.value
    {
      var record := records[i];
      if record.node != node || record.relativePath != path {
        continue;
      }
      if latest.None? || record.at > latest.value.at {
        latest := Some(record);
        k := i;
      }
    }
    assert latest.Some? ==> records[k] in records;
  }
}
