/** The client's disk, and SyncWriter on it. */
module SyncWriter {
  import opened Base
  import opened Chunks
  import opened Attempt
  import opened Hasher

  /** What survives a crash: files and the two task tables. history has the state after every write. */
  class ClientDisk {
    var files: map<Path, Bytes>
    var marks: map<TaskId, map<nat, Mark>>
    var tasks: map<TaskId, TaskRow>
    ghost var history: seq<Disk>

    function Now(): Disk
      reads this
    {
      Disk(files, marks, tasks)
    }

    twostate predicate Wrote(s: Disk)
      reads this
    {
      Now() == s && history == old(history) + [s]
    }

    method WriteFile(path: Path, content: Bytes)
      modifies this
      ensures Wrote(WithFile(old(Now()), path, content))
    {
      files := files[path := content];
      history := history + [Now()];
    }

    method RemoveFile(path: Path)
      modifies this
      ensures Wrote(WithoutFile(old(Now()), path))
    {
      files := files - {path};
      history := history + [Now()];
    }

    method RenameFile(from: Path, to: Path)
      requires from in files
      modifies this
      ensures Wrote(Renamed(old(Now()), from, to))
    {
      files := (files - {from})[to := files[from]];
      history := history + [Now()];
    }

    method UpsertTask(id: TaskId, row: TaskRow)
      modifies this
      ensures Wrote(WithRow(old(Now()), id, row))
    {
      tasks := tasks[id := row];
      history := history + [Now()];
    }

    method MarkTaskChunkComplete(id: TaskId, c: ChunkEntry)
      modifies this
      ensures Wrote(WithMark(old(Now()), id, c))
    {
      marks := marks[id := MarksOf(Now(), id)[c.index := Mark(c.offset, c.size, c.hash)]];
      history := history + [Now()];
    }

    method ClearTaskChunks(id: TaskId)
      modifies this
      ensures Wrote(Cleared(old(Now()), id))
    {
      marks := marks[id := map[]];
      history := history + [Now()];
    }
  }

  const READ_BLOCK: nat := 1024 * 1024

  class SyncWriter {
    const disk: ClientDisk
    const hasher: Md5Hasher
    var finalPath: Path
    var tempPath: Path
    var active: bool
    var bytesWritten: nat
    ghost var lost: nat  // bytes of successful appends that never reached the file

    /** The hasher, and all it holds. */
    ghost function HashRepr(): set<object>
      reads this, hasher, hasher.ctx
    {
      hasher.Repr()
    }

    /** An active writer has hashed exactly the bytes of the .part, and counted them. */
    ghost predicate Agrees()
      reads this, disk, hasher, hasher.ctx
    {
      && tempPath == TempOf(finalPath) && tempPath in disk.files
      && hasher.Fed() == disk.files[tempPath] && bytesWritten == |disk.files[tempPath]|
    }

    ghost predicate Valid()
      reads this, disk, hasher, hasher.ctx, hasher.ctx.state, hasher.ctx.buffer
    {
      && hasher.Valid()
      && (if active then lost == 0 && Agrees() else tempPath == [] && bytesWritten == 0)
    }

    /** An active writer has hashed what was appended, and the .part lacks the bytes that were lost. */
    ghost predicate Open()
      reads this, disk, hasher, hasher.ctx, hasher.ctx.state, hasher.ctx.buffer
    {
      && hasher.Valid() && active && tempPath == TempOf(finalPath) && tempPath in disk.files
      && |hasher.Fed()| == bytesWritten == |disk.files[tempPath]| + lost
      && (lost == 0 ==> hasher.Fed() == disk.files[tempPath])
    }

    constructor (disk: ClientDisk)
      ensures Valid() && !active && this.disk == disk && fresh(HashRepr())
    {
      this.disk := disk;
      hasher := new Md5Hasher();
      finalPath, tempPath, active, bytesWritten, lost := [], [], false, 0, 0;
    }

    method Begin(path: Path)
      requires hasher.Valid()
      modifies this, disk, HashRepr()
      ensures Valid() && active && finalPath == path && bytesWritten == 0
      ensures disk.Wrote(WithFile(old(disk.Now()), TempOf(path), []))
    {
      finalPath, tempPath := path, TempOf(path);
      disk.WriteFile(tempPath, []);
      hasher.Reset();
      active, bytesWritten, lost := true, 0, 0;
    }

    /** Re-hashes what the .part holds, a block at a time; starts an absent .part empty. */
    method Resume(path: Path)
      requires hasher.Valid()
      modifies this, disk, HashRepr()
      ensures Valid() && active && finalPath == path
      ensures if TempOf(path) in old(disk.files)
              then disk.Now() == old(disk.Now()) && disk.history == old(disk.history)
              else disk.Wrote(WithFile(old(disk.Now()), TempOf(path), []))
    {
      hide Md5Hasher.Valid, Md5Hasher.Fed;
      finalPath, tempPath := path, TempOf(path);
      hasher.Reset();
      bytesWritten, lost := 0, 0;
      if tempPath !in disk.files {
        Begin(path);
        return;
      }
      var input := disk.files[tempPath];
      while bytesWritten < |input|
        invariant hasher.Valid() && bytesWritten <= |input|
        invariant hasher.Fed() == input[..bytesWritten]
        modifies this`bytesWritten, HashRepr()
      {
        var readCount := Min(READ_BLOCK, |input| - bytesWritten);
        hasher.UpdateAll(input[bytesWritten..bytesWritten + readCount]);
        bytesWritten := bytesWritten + readCount;
      }
      active := true;
    }

    /**
     accepted: how many bytes the stream takes; fewer than all of them is a failed write. flushed: how many of them reach
     the file when the stream is closed, which nobody asks.
     */
    method Append(bytes: Bytes, accepted: nat, flushed: nat) returns (ok: bool)
      requires hasher.Valid() && Hashable(|bytes|) && (active ==> Open())
      modifies this, disk, HashRepr()
      ensures ok <==> old(active) && accepted >= |bytes|
      ensures tempPath == old(tempPath) && finalPath == old(finalPath) && active == old(active) && hasher.Valid()
      ensures ok ==> Open() && lost == old(lost) + |bytes| - Min(flushed, |bytes|)
      ensures ok ==> hasher.Fed() == old(hasher.Fed()) + bytes
      ensures ok ==> disk.Wrote(WithFile(
                       old(disk.Now()), tempPath, old(disk.files[tempPath]) + bytes[..Min(flushed, |bytes|)]))
      ensures !old(active) ==> disk.Now() == old(disk.Now()) && disk.history == old(disk.history)
      ensures old(active) && !ok ==>
                disk.Wrote(WithFile(old(disk.Now()), tempPath, old(disk.files[tempPath]) + bytes[..accepted]))
      // After a failed write the hasher lacks the bytes the file got: it still agrees only if there are none.
      ensures old(active && Valid()) && !ok ==> (Valid() <==> accepted == 0)
    {
      if !active {
        return false;
      }
      if accepted < |bytes| {
        disk.WriteFile(tempPath, disk.files[tempPath] + bytes[..accepted]);
        return false;
      }
      var reached := Min(flushed, |bytes|);
      disk.WriteFile(tempPath, disk.files[tempPath] + bytes[..reached]);
      if bytes != [] {
        hasher.UpdateAll(bytes);
        bytesWritten := bytesWritten + |bytes|;
      }
      lost := lost + |bytes| - reached;
      ok := true;
    }

    method Abort()
      requires hasher.Valid()
      modifies this, disk
      ensures Valid() && !active
      ensures if old(tempPath) == [] then disk.Now() == old(disk.Now()) && disk.history == old(disk.history)
              else disk.Wrote(WithoutFile(old(disk.Now()), old(tempPath)))
    {
      if tempPath != [] {
        disk.RemoveFile(tempPath);
      }
      active, tempPath, bytesWritten, lost := false, [], 0, 0;
    }

    /**
     Renames exactly when the writer is active, the bytes hashed have the root, and the rename works. The bytes hashed
     are those of the .part unless the last append failed.
     */
    method VerifyAndCommit(root: Str, renameFails: bool) returns (ok: bool)
      requires hasher.Valid() && (active ==> tempPath == TempOf(finalPath) && tempPath in disk.files)
      requires !active ==> tempPath == [] && bytesWritten == 0
      modifies this, disk
      ensures Valid() && !active
      ensures !old(active) ==> !ok && disk.Now() == old(disk.Now()) && disk.history == old(disk.history)
      ensures old(active) ==> (ok <==> MD5HEX(old(hasher.Fed())) == root && !renameFails)
      ensures old(active && Valid()) ==> (ok <==> MD5HEX(old(disk.files[tempPath])) == root && !renameFails)
      ensures old(active) && !ok ==> disk.Wrote(WithoutFile(old(disk.Now()), old(tempPath)))
      ensures ok ==> disk.Wrote(Renamed(old(disk.Now()), old(tempPath), old(finalPath)))
      // What is committed is what was hashed if and only if every append reached the file.
      ensures ok && old(Open()) ==> (old(disk.files[tempPath]) == old(hasher.Fed()) <==> old(lost) == 0)
    {
      if !active {
        return false;
      }
      var hex := hasher.FinalHex();
      if hex != root || renameFails {
        Abort();
        return false;
      }
      disk.RenameFile(tempPath, finalPath);
      active, tempPath, bytesWritten, lost := false, [], 0, 0;
      ok := true;
    }
  }
}
