/** The mirror backend: files stored under their hash, restored and verified. */
module MirrorRules {
  import opened Base
  import opened Chunks
  import I = FileIndex

  /** A stored_objects row written by the mirror backend, without its key; other backends' rows are elsewhere. */
  datatype Object = Object(key: Path, sourcePath: Path)

  datatype Site = Site(files: map<Path, Bytes>, stored: map<Str, Object>, index: I.Tables)

  const EMPTY := Site(map[], map[], I.EMPTY)
  const SLASH: byte := 47
  const DOT: byte := 46

  /** The name behind the last slash. */
  function FileName(path: Path): Path {
    if path == [] || path[|path| - 1] == SLASH then []
    else FileName(path[..|path| - 1]) + [path[|path| - 1]]
  }

  /** From the last dot of a name on; none if there is no dot behind the first character. */
  function ExtensionOf(name: Path, k: nat): Path
    requires k <= |name|
  {
    if k <= 1 then [] else if name[k - 1] == DOT then name[k - 1..] else ExtensionOf(name, k - 1)
  }

  function Extension(path: Path): Path {
    var name := FileName(path);
    if name == [DOT] || name == [DOT, DOT] then [] else ExtensionOf(name, |name|)
  }

  /** root / first two characters of the id / id, with the extension of the local file. */
  function KeyOf(root: Path, id: Str, extension: Path): Path {
    root + [SLASH] + id[..Min(2, |id|)] + [SLASH] + id + extension
  }

  predicate InMirror(root: Path, path: Path) { root + [SLASH] <= path }

  /** Under one root, ids of equal length are told apart by their keys. */
  lemma KeysAreDistinct(root: Path, a: Str, b: Str, x: Path, y: Path)
    requires |a| == |b| && KeyOf(root, a, x) == KeyOf(root, b, y)
    ensures a == b
  {
    var n, m := |root| + 1 + Min(2, |a|) + 1, |a|;
    assert KeyOf(root, a, x)[n..n + m] == a;
    assert KeyOf(root, b, y)[n..n + m] == b;
  }

  /** IntegrityChecker::VerifyFile. */
  predicate Verifies(h: Hash, files: map<Path, Bytes>, f: FileRecord, path: Path) {
    path in files && |files[path]| == f.size && h(files[path]) == f.rootHash
  }

  /** StoreFile and the row it returns; copying a file onto itself throws. */
  function StoreFile(s: Site, root: Path, f: FileRecord, path: Path): Result<Site>
    requires path in s.files
  {
    var key := KeyOf(root, f.fileId, Extension(path));
    if root == [] || key == path then Err
    else Ok(s.(files := s.files[key := s.files[path]], stored := s.stored[f.fileId := Object(key, path)]))
  }

  datatype BackupEnd = Completed | NotVerified | NotStored

  /** The backup loop: files stored one by one until one fails. */
  function BackupAll(h: Hash, s: Site, root: Path, files: seq<FileRecord>): (Site, BackupEnd) {
    if files == [] then (s, Completed)
    else
      var (before, end) := BackupAll(h, s, root, files[..|files| - 1]);
      var f := files[|files| - 1];
      if end != Completed then (before, end)
      else if !Verifies(h, before.files, f, f.absolutePath) then (before, NotVerified)
      else
        var r := StoreFile(before, root, f, f.absolutePath);
        if r.Err? then (before, NotStored) else (r.value, Completed)
  }

  datatype RestoreEnd = Restored | NoObject | NoFileRow | NoCopy | HashMismatch

  /** RestoreFile and VerifyRestoredFile, behind the lookups of ExecuteRestore. */
  function Restore(h: Hash, s: Site, id: Str, target: Path): (Site, RestoreEnd) {
    if id !in s.stored then (s, NoObject)
    else if id !in s.index.rows then (s, NoFileRow)
    else
      var key := s.stored[id].key;
      if key == [] || key !in s.files || key == target then (s, NoCopy)
      else
        var s1 := s.(files := s.files[target := s.files[key]]);
        (s1, if h(s1.files[target]) == s.index.rows[id].rootHash then Restored else HashMismatch)
  }

  /** What happens at the site: indexing, backups, restores, and other writers. */
  datatype Op =
    | Index(file: FileRecord)
    | Backup(files: seq<FileRecord>)
    | RestoreTo(id: Str, target: Path)
    | Elsewhere(path: Path, content: Option<Bytes>)

  ghost function Apply(h: Hash, s: Site, root: Path, op: Op): Site {
    match op
    case Index(file) =>
      var r := I.Upsert(s.index, file);
      if r.Ok? then s.(index := r.value) else s
    case Backup(files) => BackupAll(h, s, root, files).0
    case RestoreTo(id, target) => Restore(h, s, id, target).0
    case Elsewhere(path, content) =>
      s.(files := if content.Some? then s.files[path := content.value] else s.files - {path})
  }

  /** Records come from the chunker, and nobody else writes into the mirror. */
  predicate Allowed(root: Path, op: Op) {
    match op
    case Index(file) => file.fileId == file.rootHash
    case Backup(files) => forall f | f in files :: f.fileId == f.rootHash
    case RestoreTo(_, target) => !InMirror(root, target)
    case Elsewhere(path, _) => !InMirror(root, path)
  }

  /** Every mirror row names a file of its id's own whose bytes hash to the id, and index rows have their hash as id. */
  ghost predicate Inv(h: Hash, s: Site, root: Path) {
    && (forall id | id in s.stored ::
          && (exists x :: s.stored[id].key == KeyOf(root, id, x))
          && s.stored[id].key in s.files && h(s.files[s.stored[id].key]) == id)
    && (forall id | id in s.index.rows :: s.index.rows[id].rootHash == id)
    && I.Valid(s.index)
  }

  ghost predicate FixedLength(h: Hash) {
    forall x, y :: |h(x)| == |h(y)|
  }

  /** Storing one verified file keeps the mirror content-addressed, also when it overwrites. */
  lemma StoreKeepsInv(h: Hash, s: Site, root: Path, f: FileRecord, path: Path)
    requires Inv(h, s, root) && FixedLength(h)
    requires f.fileId == f.rootHash && Verifies(h, s.files, f, path)
    ensures StoreFile(s, root, f, path).Ok? ==> Inv(h, StoreFile(s, root, f, path).value, root)
  {
    hide KeyOf, Extension, I.Valid;
    var r, key, content := StoreFile(s, root, f, path), KeyOf(root, f.fileId, Extension(path)), s.files[path];
    if r.Ok? {
      var s1 := r.value;
      forall id | id in s1.stored
        ensures exists x :: s1.stored[id].key == KeyOf(root, id, x)
        ensures s1.stored[id].key in s1.files && h(s1.files[s1.stored[id].key]) == id
      {
        if id != f.fileId {
          var x :| s.stored[id].key == KeyOf(root, id, x);
          assert |id| == |h(s.files[s.stored[id].key])| == |h(content)| == |f.fileId|;
          if s.stored[id].key == key {
            KeysAreDistinct(root, id, f.fileId, x, Extension(path));
          }
        }
      }
    }
  }

  lemma {:induction false} BackupKeepsInv(h: Hash, s: Site, root: Path, files: seq<FileRecord>)
    requires Inv(h, s, root) && FixedLength(h) && forall f | f in files :: f.fileId == f.rootHash
    ensures Inv(h, BackupAll(h, s, root, files).0, root)
  {
    hide Inv, FixedLength, StoreFile;
    if files != [] {
      var front, f := files[..|files| - 1], files[|files| - 1];
      BackupKeepsInv(h, s, root, front);
      var (before, end) := BackupAll(h, s, root, front);
      if end == Completed && Verifies(h, before.files, f, f.absolutePath) {
        StoreKeepsInv(h, before, root, f, f.absolutePath);
      }
    }
  }

  lemma KeyInMirror(root: Path, id: Str, x: Path)
    ensures InMirror(root, KeyOf(root, id, x))
  {
  }

  /** Writing outside the mirror keeps it. */
  lemma OutsideKeepsInv(h: Hash, s: Site, root: Path, path: Path, files: map<Path, Bytes>)
    requires Inv(h, s, root) && !InMirror(root, path)
    requires forall p | p != path :: (p in files <==> p in s.files) && (p in files ==> files[p] == s.files[p])
    ensures Inv(h, s.(files := files), root)
  {
    hide KeyOf, InMirror, I.Valid;
    forall id | id in s.stored
      ensures s.stored[id].key != path
    {
      var x :| s.stored[id].key == KeyOf(root, id, x);
      KeyInMirror(root, id, x);
    }
  }

  lemma StepKeepsInv(h: Hash, s: Site, root: Path, op: Op)
    requires Inv(h, s, root) && FixedLength(h) && Allowed(root, op)
    ensures Inv(h, Apply(h, s, root, op), root)
  {
    match op
    case Index(file) =>
      hide I.Upsert;
      I.UpsertIsExact(s.index, file);
    case Backup(files) => BackupKeepsInv(h, s, root, files);
    case RestoreTo(id, target) => OutsideKeepsInv(h, s, root, target, Restore(h, s, id, target).0.files);
    case Elsewhere(path, content) => OutsideKeepsInv(h, s, root, path, Apply(h, s, root, op).files);
  }

  ghost function After(h: Hash, root: Path, ops: seq<Op>): Site {
    if ops == [] then EMPTY else Apply(h, After(h, root, ops[..|ops| - 1]), root, ops[|ops| - 1])
  }

  lemma {:induction false} RunsKeepInv(h: Hash, root: Path, ops: seq<Op>)
    requires FixedLength(h) && forall op | op in ops :: Allowed(root, op)
    ensures Inv(h, After(h, root, ops), root)
  {
    hide Apply, Allowed, FixedLength;
    if ops != [] {
      RunsKeepInv(h, root, ops[..|ops| - 1]);
      StepKeepsInv(h, After(h, root, ops[..|ops| - 1]), root, ops[|ops| - 1]);
    }
  }

  /**
   After any run, a restore of a stored object to a path outside the mirror succeeds, hash check included, if and only
   if the file's index row is still there; then the target holds bytes with the file's hash.
   */
  lemma RestoreVerifies(h: Hash, root: Path, ops: seq<Op>, id: Str, target: Path)
    requires FixedLength(h) && forall op | op in ops :: Allowed(root, op)
    requires id in After(h, root, ops).stored && !InMirror(root, target)
    ensures var s := After(h, root, ops);
            var (s1, end) := Restore(h, s, id, target);
            && (end == Restored <==> id in s.index.rows)
            && (end == Restored || end == NoFileRow)
            && (end == Restored ==> target in s1.files && h(s1.files[target]) == id)
  {
    RunsKeepInv(h, root, ops);
    hide After, KeyOf, InMirror, Allowed, FixedLength;
    var s := After(h, root, ops);
    var x :| s.stored[id].key == KeyOf(root, id, x);
    KeyInMirror(root, id, x);
    KeyIsLong(root, id, x);
  }

  lemma KeyIsLong(root: Path, id: Str, x: Path)
    ensures KeyOf(root, id, x) != []
  {
  }
}
