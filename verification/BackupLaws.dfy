/** What a backup leaves in the mirror, and that it can be restored after whatever happens next. */
module BackupLaws {
  import opened Base
  import opened Chunks
  import opened MirrorRules

  ghost predicate FromChunker(files: seq<FileRecord>) {
    forall f | f in files :: f.fileId == f.rootHash
  }

  /** A row for the file is there, and its key names bytes with the file's hash. */
  ghost predicate Holds(h: Hash, s: Site, f: FileRecord) {
    && f.fileId in s.stored
    && s.stored[f.fileId].key in s.files
    && h(s.files[s.stored[f.fileId].key]) == f.rootHash
  }

  lemma {:induction false} RowsAreAdded(h: Hash, s: Site, root: Path, files: seq<FileRecord>)
    ensures forall id | id in s.stored :: id in BackupAll(h, s, root, files).0.stored
    ensures BackupAll(h, s, root, files).1 == Completed ==>
              forall f | f in files :: f.fileId in BackupAll(h, s, root, files).0.stored
  {
    hide Verifies, KeyOf, Extension;
    if files != [] {
      var front, f := files[..|files| - 1], files[|files| - 1];
      RowsAreAdded(h, s, root, front);
      assert files == front + [f];
    }
  }

  /** A backup that ends Completed has every file in the mirror, bytes and row, whatever was there before. */
  lemma BackupHolds(h: Hash, s: Site, root: Path, files: seq<FileRecord>)
    requires Inv(h, s, root) && FixedLength(h) && FromChunker(files)
    requires BackupAll(h, s, root, files).1 == Completed
    ensures Inv(h, BackupAll(h, s, root, files).0, root)
    ensures forall f | f in files :: Holds(h, BackupAll(h, s, root, files).0, f)
  {
    hide BackupAll, FixedLength;
    BackupKeepsInv(h, s, root, files);
    RowsAreAdded(h, s, root, files);
  }

  /** Each row a completed backup wrote says where the file came from; of files with one id the last one counts. */
  lemma {:induction false} RowsNameTheirSource(h: Hash, s: Site, root: Path, files: seq<FileRecord>, i: nat)
    requires i < |files| && BackupAll(h, s, root, files).1 == Completed
    requires forall j | i < j < |files| :: files[j].fileId != files[i].fileId
    ensures var s1 := BackupAll(h, s, root, files).0;
            && files[i].fileId in s1.stored
            && s1.stored[files[i].fileId] ==
               Object(KeyOf(root, files[i].fileId, Extension(files[i].absolutePath)), files[i].absolutePath)
  {
    hide Verifies, KeyOf, Extension;
    if i < |files| - 1 {
      RowsNameTheirSource(h, s, root, files[..|files| - 1], i);
    }
  }

  /** What stays of a backup's surroundings, whatever its end: the index, files outside the mirror, rows of other ids. */
  lemma {:induction false} BackupLeavesAlone(h: Hash, s: Site, root: Path, files: seq<FileRecord>)
    ensures var s1 := BackupAll(h, s, root, files).0;
            && s1.index == s.index
            && (forall p | !InMirror(root, p) ::
                  (p in s1.files <==> p in s.files) && (p in s.files ==> s1.files[p] == s.files[p]))
            && forall id | forall f | f in files :: f.fileId != id ::
                 (id in s1.stored <==> id in s.stored) && (id in s.stored ==> s1.stored[id] == s.stored[id])
  {
    hide Verifies, KeyOf, Extension, InMirror;
    if files != [] {
      var front, f := files[..|files| - 1], files[|files| - 1];
      BackupLeavesAlone(h, s, root, front);
      KeyInMirror(root, f.fileId, Extension(f.absolutePath));
      assert files == front + [f];
    }
  }

  /** The file is there with the size and hash of its record, and is not itself the place it would be copied to. */
  predicate CanStore(h: Hash, s: Site, root: Path, f: FileRecord) {
    && f.absolutePath in s.files
    && |s.files[f.absolutePath]| == f.size
    && h(s.files[f.absolutePath]) == f.rootHash
    && root != []
    && KeyOf(root, f.fileId, Extension(f.absolutePath)) != f.absolutePath
  }

  /** A backup ends Completed if and only if each file, when its turn comes, verifies and is not its own key. */
  lemma {:induction false} CompletesExactly(h: Hash, s: Site, root: Path, files: seq<FileRecord>)
    ensures BackupAll(h, s, root, files).1 == Completed <==>
              forall i | 0 <= i < |files| :: CanStore(h, BackupAll(h, s, root, files[..i]).0, root, files[i])
  {
    hide KeyOf, Extension;
    if files != [] {
      var n := |files| - 1;
      CompletesExactly(h, s, root, files[..n]);
      assert forall i | 0 <= i < n :: files[..n][..i] == files[..i] && files[..n][i] == files[i];
    }
  }

  /** For files outside the mirror, all turns are decided before the backup starts. */
  lemma CompletesFromOutside(h: Hash, s: Site, root: Path, files: seq<FileRecord>)
    requires forall f | f in files :: !InMirror(root, f.absolutePath)
    ensures BackupAll(h, s, root, files).1 == Completed <==>
              forall f | f in files ::
                && root != [] && f.absolutePath in s.files
                && |s.files[f.absolutePath]| == f.size && h(s.files[f.absolutePath]) == f.rootHash
  {
    CompletesExactly(h, s, root, files);
    forall i | 0 <= i < |files|
      ensures CanStore(h, BackupAll(h, s, root, files[..i]).0, root, files[i]) == CanStore(h, s, root, files[i])
      ensures KeyOf(root, files[i].fileId, Extension(files[i].absolutePath)) != files[i].absolutePath
    {
      BackupLeavesAlone(h, s, root, files[..i]);
      KeyInMirror(root, files[i].fileId, Extension(files[i].absolutePath));
      assert files[i] in files;
    }
    hide BackupAll, KeyOf, Extension, InMirror;
  }

  /**
   In any state, also one in which others wrote into the mirror: a restore ends Restored if and only if object and file
   row are there, the copy can be made, and what is copied hashes to the row's root hash. Only the target changes.
   */
  lemma RestoreIsExact(h: Hash, s: Site, id: Str, target: Path)
    ensures var (s1, end) := Restore(h, s, id, target);
            && (end == Restored <==>
                  && id in s.stored && id in s.index.rows
                  && s.stored[id].key != [] && s.stored[id].key in s.files && s.stored[id].key != target
                  && h(s.files[s.stored[id].key]) == s.index.rows[id].rootHash)
            && (end == Restored || end == HashMismatch ==>
                  target in s1.files && s1.files[target] == s.files[s.stored[id].key])
            && (end != Restored && end != HashMismatch ==> s1 == s)
            && s1.stored == s.stored && s1.index == s.index
            && forall p | p != target :: (p in s1.files <==> p in s.files) && (p in s.files ==> s1.files[p] == s.files[p])
  {
  }

  // ---------- The extension in a key ----------

  lemma {:induction false} NameBehindSlash(dir: Path, name: Path)
    requires SLASH !in name
    ensures FileName(dir + [SLASH] + name) == name
  {
    var path := dir + [SLASH] + name;
    if name != [] {
      var front := name[..|name| - 1];
      NameBehindSlash(dir, front);
      assert path[..|path| - 1] == dir + [SLASH] + front;
      assert name == front + [name[|name| - 1]] && name[|name| - 1] in name;
    }
  }

  lemma {:induction false} LastDot(stem: Path, suffix: Path, k: nat)
    requires stem != [] && DOT !in suffix && |stem| < k <= |stem + [DOT] + suffix|
    ensures ExtensionOf(stem + [DOT] + suffix, k) == [DOT] + suffix
  {
    var name := stem + [DOT] + suffix;
    if k == |stem| + 1 {
      assert name[k - 1..] == [DOT] + suffix;
    } else {
      assert name[k - 1] == suffix[k - 1 - |stem| - 1];
      LastDot(stem, suffix, k - 1);
    }
  }

  lemma {:induction false} NoDot(name: Path, k: nat)
    requires k <= |name| && forall i | 0 < i < k :: name[i] != DOT
    ensures ExtensionOf(name, k) == []
  {
    if k > 1 {
      NoDot(name, k - 1);
    }
  }

  /** The key keeps the last dot of the name and what is behind it, the name ".." apart. */
  lemma ExtensionKept(dir: Path, stem: Path, suffix: Path)
    requires SLASH !in stem && SLASH !in suffix && DOT !in suffix && stem != []
    ensures Extension(dir + [SLASH] + stem + [DOT] + suffix) ==
              if stem == [DOT] && suffix == [] then [] else [DOT] + suffix
  {
    var name := stem + [DOT] + suffix;
    assert dir + [SLASH] + stem + [DOT] + suffix == dir + [SLASH] + name;
    NameBehindSlash(dir, name);
    LastDot(stem, suffix, |name|);
    assert name == [DOT, DOT] ==> |stem| == 1 && stem[0] == name[0] && suffix == [];
    assert stem == [DOT] && suffix == [] ==> name == [DOT, DOT];
  }

  /** A name without a dot behind its first character has no extension. */
  lemma NoExtension(dir: Path, name: Path)
    requires SLASH !in name && forall i | 0 < i < |name| :: name[i] != DOT
    ensures Extension(dir + [SLASH] + name) == []
  {
    NameBehindSlash(dir, name);
    NoDot(name, |name|);
  }

  /** /mirror, the id abcd and the file /home/a.b.txt give /mirror/ab/abcd.txt. */
  lemma KeySample()
    ensures KeyOf(Text("/mirror"), Text("abcd"), Extension(Text("/home") + [SLASH] + Text("a.b") + [DOT] + Text("txt")))
         == Text("/mirror/ab/abcd.txt")
  {
    ExtensionKept(Text("/home"), Text("a.b"), Text("txt"));
    hide Extension;
    assert [DOT] + Text("txt") == Text(".txt");
  }

  // ---------- Backed up, then anything, then restored ----------

  lemma {:induction false} RowsStay(h: Hash, root: Path, ops: seq<Op>, later: seq<Op>)
    ensures forall id | id in After(h, root, ops).stored :: id in After(h, root, ops + later).stored
  {
    hide BackupAll, Verifies;
    if later == [] {
      assert ops + later == ops;
    } else {
      var n := |later| - 1;
      RowsStay(h, root, ops, later[..n]);
      assert (ops + later)[..|ops + later| - 1] == ops + later[..n];
      var s := After(h, root, ops + later[..n]);
      match later[n]
      case Backup(files) => RowsAreAdded(h, s, root, files);
      case _ =>
    }
  }

  /**
   After any run, a completed backup, and any further run, each file of the backup restores to a path outside the
   mirror, with the hash it was recorded with, if and only if its index row is there.
   */
  lemma BackedUpRestores(h: Hash, root: Path, ops: seq<Op>, files: seq<FileRecord>, later: seq<Op>, f: FileRecord,
                         target: Path)
    requires FixedLength(h) && f in files && !InMirror(root, target)
    requires forall op | op in ops + [Backup(files)] + later :: Allowed(root, op)
    requires BackupAll(h, After(h, root, ops), root, files).1 == Completed
    ensures var s := After(h, root, ops + [Backup(files)] + later);
            var (s1, end) := Restore(h, s, f.fileId, target);
            && (end == Restored <==> f.fileId in s.index.rows)
            && (end == Restored ==> target in s1.files && h(s1.files[target]) == f.rootHash)
            && s1.stored == s.stored && s1.index == s.index
            && forall p | p != target :: (p in s1.files <==> p in s.files) && (p in s.files ==> s1.files[p] == s.files[p])
  {
    var all := ops + [Backup(files)];
    RowsAreAdded(h, After(h, root, ops), root, files);
    assert all[..|all| - 1] == ops;
    assert all[|all| - 1] in all + later && Allowed(root, all[|all| - 1]);
    RowsStay(h, root, all, later);
    hide After, BackupAll, FixedLength, KeyOf;
    RestoreVerifies(h, root, all + later, f.fileId, target);
  }
}
