/** The file index in SQLite: file_records with its two keys, chunk_records, and the UpsertFile transaction. */
module FileIndex {
  import opened Base
  import opened Chunks

  datatype FileRow = FileRow(
    relativePath: Path, absolutePath: Path, size: nat, mtime: nat, mode: nat, rootHash: Str)

  datatype ChunkRow = ChunkRow(offset: nat, size: nat, hash: Str)

  /** rows by file_id; chunk rows by (file_id, chunk_index). */
  datatype Tables = Tables(rows: map<Str, FileRow>, chunks: map<(Str, nat), ChunkRow>)

  const EMPTY := Tables(map[], map[])

  /** UNIQUE(absolute_path) and the foreign key of chunk_records; the primary keys are the maps' own. */
  ghost predicate Valid(t: Tables) {
    && (forall a, b | a in t.rows && b in t.rows && t.rows[a].absolutePath == t.rows[b].absolutePath :: a == b)
    && (forall k | k in t.chunks :: k.0 in t.rows)
  }

  function RowOf(f: FileRecord): FileRow {
    FileRow(f.relativePath, f.absolutePath, f.size, f.mtime, f.mode, f.rootHash)
  }

  function ChunkRowOf(c: ChunkEntry): ChunkRow { ChunkRow(c.offset, c.size, c.hash) }

  // ---------- The statements ----------

  /** SELECT file_id FROM file_records WHERE absolute_path = path */
  ghost function IdAt(t: Tables, path: Path): (r: Option<Str>)
    ensures r.Some? ==> r.value in t.rows && t.rows[r.value].absolutePath == path
    ensures r.None? ==> forall id | id in t.rows :: t.rows[id].absolutePath != path
  {
    if exists id :: id in t.rows && t.rows[id].absolutePath == path then
      var id :| id in t.rows && t.rows[id].absolutePath == path;
      Some(id)
    else None
  }

  /** DELETE FROM chunk_records WHERE file_id = id */
  function WithoutChunks(t: Tables, id: Str): Tables {
    t.(chunks := map k | k in t.chunks && k.0 != id :: t.chunks[k])
  }

  /** DELETE FROM file_records WHERE absolute_path = path, which also deletes the chunk rows of what goes. */
  function WithoutPath(t: Tables, path: Path): Tables {
    Tables(
      map id | id in t.rows && t.rows[id].absolutePath != path :: t.rows[id],
      map k | k in t.chunks && !(k.0 in t.rows && t.rows[k.0].absolutePath == path) :: t.chunks[k])
  }

  predicate PathTaken(t: Tables, id: Str, path: Path) {
    exists other :: other in t.rows && other != id && t.rows[other].absolutePath == path
  }

  /** INSERT INTO file_records ... ON CONFLICT(file_id) DO UPDATE: fails on the other key. */
  function InsertFile(t: Tables, id: Str, row: FileRow): Result<Tables> {
    if PathTaken(t, id, row.absolutePath) then Err else Ok(t.(rows := t.rows[id := row]))
  }

  /** INSERT INTO chunk_records, a plain insert. */
  function InsertChunk(t: Tables, id: Str, c: ChunkEntry): Result<Tables> {
    if (id, c.index) in t.chunks || id !in t.rows then Err
    else Ok(t.(chunks := t.chunks[(id, c.index) := ChunkRowOf(c)]))
  }

  function InsertChunks(t: Tables, id: Str, chunks: seq<ChunkEntry>): Result<Tables> {
    if chunks == [] then Ok(t)
    else
      var front :- InsertChunks(t, id, chunks[..|chunks| - 1]);
      InsertChunk(front, id, chunks[|chunks| - 1])
  }

  /** The transaction up to the deletion of the file's own old chunk rows. */
  ghost function WriteRow(t: Tables, f: FileRecord): Result<Tables> {
    var existing := IdAt(t, f.absolutePath);
    var t1 :=
      if existing.Some? && existing.value != [] && existing.value != f.fileId then
        WithoutPath(WithoutChunks(t, existing.value), f.absolutePath)
      else t;
    var t2 :- InsertFile(t1, f.fileId, RowOf(f));
    Ok(WithoutChunks(t2, f.fileId))
  }

  /** The transaction: the tables after it, or a rollback. */
  ghost function Upsert(t: Tables, f: FileRecord): Result<Tables> {
    var t1 :- WriteRow(t, f);
    InsertChunks(t1, f.fileId, f.chunks)
  }

  class Database {
    var t: Tables

    constructor ()
      ensures t == EMPTY
    {
      t := EMPTY;
    }

    /** Replaces the path's old version, writes the file's row, and deletes its old chunk rows. */
    method WriteFileRow(f: FileRecord) returns (r: Result<()>)
      requires Valid(t)
      modifies this
      ensures r.Ok? <==> WriteRow(old(t), f).Ok?
      ensures r.Ok? ==> t == WriteRow(old(t), f).value
    {
      var existing := [];
      if id :| id in t.rows && t.rows[id].absolutePath == f.absolutePath {
        existing := id;
      }
      if existing != [] && existing != f.fileId {
        t := WithoutChunks(t, existing);
        t := WithoutPath(t, f.absolutePath);
      }
      t :- InsertFile(t, f.fileId, RowOf(f));
      t := WithoutChunks(t, f.fileId);
      r := Ok(());
    }

    method UpsertFile(f: FileRecord) returns (r: Result<()>)
      requires Valid(t)
      modifies this
      ensures r.Ok? <==> Upsert(old(t), f).Ok?
      ensures t == if r.Ok? then Upsert(old(t), f).value else old(t)
    {
      hide WriteRow, Valid, InsertChunk;
      var saved := t;
      r := WriteFileRow(f);
      if r.Err? {
        t := saved;
        return;
      }
      ghost var empty := t;
      for i := 0 to |f.chunks|
        invariant InsertChunks(empty, f.fileId, f.chunks[..i]) == Ok(t)
      {
        assert f.chunks[..i + 1][..i] == f.chunks[..i];
        var next := InsertChunk(t, f.fileId, f.chunks[i]);
        if next.Err? {
          InsertFails(empty, f.fileId, f.chunks, i + 1);
          t := saved;
          return Err;
        }
        t := next.value;
      }
      assert f.chunks[..|f.chunks|] == f.chunks;
      r := Ok(());
    }

    /** SELECT ... FROM chunk_records WHERE file_id = id ORDER BY chunk_index */
    method ListChunks(id: Str) returns (chunks: seq<ChunkEntry>)
      requires Narrow(t)
      ensures Lists(t, id, chunks)
    {
      chunks := [];
      var left := set k | k in t.chunks && k.0 == id :: k.1;
      assert forall o | o in left :: (id, o) in t.chunks;
      while left != {}
        invariant Listing(t, id, chunks, left)
        decreases |left|
      {
        LowestExists(left);
        var k :| Lowest(left, k);
        ListLowest(t, id, chunks, left, k);
        hide Listing, Narrow;
        var row := t.chunks[(id, k)];
        chunks, left := chunks + [ChunkEntry(k, row.offset, row.size, row.hash)], left - {k};
      }
    }

    method GetFile(id: Str) returns (r: Option<FileRecord>)
      requires Narrow(t)
      ensures Fetches(t, Some(id), r)
    {
      if id !in t.rows {
        return None;
      }
      var row := t.rows[id];
      var chunks := ListChunks(id);
      r := Some(FileRecord(
        id, row.relativePath, row.absolutePath, row.size, row.mtime, row.mode, row.rootHash, chunks));
    }

    method GetFileByPath(path: Path) returns (r: Option<FileRecord>)
      requires Valid(t) && Narrow(t)
      ensures Fetches(t, IdAt(t, path), r)
    {
      if id :| id in t.rows && t.rows[id].absolutePath == path {
        r := GetFile(id);
      } else {
        r := None;
      }
    }

    /** SELECT ... FROM file_records ORDER BY absolute_path */
    method ListFiles() returns (records: seq<FileRecord>)
      requires Valid(t) && Narrow(t)
      ensures ListsFiles(t, records)
    {
      records := [];
      var left := t.rows.Keys;
      while left != {}
        invariant left <= t.rows.Keys && FirstFiles(t, records, left)
        decreases |left|
      {
        FirstExists(t, left);
        var id :| id in left && IsFirst(t, left, id);
        var r := GetFile(id);
        FilesNext(t, records, left, id, r.value);
        hide Fetches, Narrow, FirstFiles, IsFirst;
        records, left := records + [r.value], left - {id};
      }
    }
  }

  // ---------- The lookups ----------

  /** No row of these stands before this one. */
  predicate IsFirst(t: Tables, left: set<Str>, id: Str)
    requires id in left && left <= t.rows.Keys
  {
    forall o | o in left && o != id :: Before(t.rows[id].absolutePath, t.rows[o].absolutePath)
  }

  lemma {:induction false} FirstExists(t: Tables, left: set<Str>)
    requires Valid(t) && left != {} && left <= t.rows.Keys
    ensures exists id :: id in left && IsFirst(t, left, id)
    decreases left
  {
    var x :| x in left;
    var rest := left - {x};
    if rest == {} {
      assert forall o | o in left && o != x :: o in rest;
      assert IsFirst(t, left, x);
    } else {
      FirstExists(t, rest);
      var y :| y in rest && IsFirst(t, rest, y);
      var a, b := t.rows[x].absolutePath, t.rows[y].absolutePath;
      BeforeIsTotal(a, b);
      if Before(a, b) {
        forall o | o in left && o != x
          ensures Before(a, t.rows[o].absolutePath)
        {
          if o != y {
            BeforeIsTransitive(a, b, t.rows[o].absolutePath);
          }
        }
        assert IsFirst(t, left, x);
      } else {
        hide Before;
        assert IsFirst(t, left, y);
      }
    }
  }

  /** The files listed so far, in order, and the rows still to come. */
  ghost predicate FirstFiles(t: Tables, records: seq<FileRecord>, left: set<Str>)
    requires left <= t.rows.Keys
  {
    && (forall i | 0 <= i < |records| ::
          && Fetches(t, Some(records[i].fileId), Some(records[i])) && records[i].fileId !in left
          && forall o | o in left :: Before(records[i].absolutePath, t.rows[o].absolutePath))
    && (forall i, j | 0 <= i < j < |records| ::
          && records[i].fileId != records[j].fileId && Before(records[i].absolutePath, records[j].absolutePath))
    && (forall id | id in t.rows :: id in left || exists i :: 0 <= i < |records| && records[i].fileId == id)
  }

  lemma FilesNext(t: Tables, records: seq<FileRecord>, left: set<Str>, id: Str, r: FileRecord)
    requires left <= t.rows.Keys && FirstFiles(t, records, left) && id in left && IsFirst(t, left, id)
    requires Fetches(t, Some(id), Some(r))
    ensures FirstFiles(t, records + [r], left - {id})
  {
    assert r.fileId == id && r.absolutePath == t.rows[id].absolutePath;
    hide Fetches, Before;
    var all := records + [r];
    assert all[|records|] == r && forall i | 0 <= i < |records| :: all[i] == records[i];
  }

  /** Indexes are 32-bit numbers. */
  ghost predicate Narrow(t: Tables) {
    forall k | k in t.chunks :: k.1 < TWO_32
  }

  predicate Lowest(keys: set<nat>, k: nat) {
    k in keys && forall o | o in keys :: Signed(k) <= Signed(o)
  }

  lemma LowerOf(keys: set<nat>, x: nat, k: nat)
    requires x in keys && Lowest(keys - {x}, k)
    ensures Lowest(keys, if Signed(x) <= Signed(k) then x else k)
  {
    hide Signed;
    assert forall o | o in keys :: o == x || o in keys - {x};
  }

  lemma {:induction false} LowestExists(keys: set<nat>)
    requires keys != {}
    ensures exists k :: Lowest(keys, k)
    decreases keys
  {
    hide Signed;
    var x :| x in keys;
    if keys == {x} {
      assert Lowest(keys, x);
    } else {
      assert keys - {x} != {} by { assert exists o :: o in keys && o != x; }
      hide Lowest;
      LowestExists(keys - {x});
      var k :| Lowest(keys - {x}, k);
      LowerOf(keys, x, k);
    }
  }

  /** The rows listed so far, lowest first, and the indexes still to come. */
  ghost predicate Listing(t: Tables, id: Str, chunks: seq<ChunkEntry>, left: set<nat>) {
    && InOrder(chunks)
    && (forall i | 0 <= i < |chunks| ::
          && (id, chunks[i].index) in t.chunks && t.chunks[(id, chunks[i].index)] == ChunkRowOf(chunks[i])
          && forall o | o in left :: Signed(chunks[i].index) < Signed(o))
    && (forall o | o in left :: (id, o) in t.chunks)
    && (forall k | k in t.chunks && k.0 == id :: k.1 in left || exists i :: 0 <= i < |chunks| && chunks[i].index == k.1)
  }

  lemma ListLowest(t: Tables, id: Str, chunks: seq<ChunkEntry>, left: set<nat>, k: nat)
    requires Narrow(t) && Listing(t, id, chunks, left) && Lowest(left, k)
    ensures (id, k) in t.chunks
    ensures var row := t.chunks[(id, k)];
            Listing(t, id, chunks + [ChunkEntry(k, row.offset, row.size, row.hash)], left - {k})
  {
    var row := t.chunks[(id, k)];
    var all := chunks + [ChunkEntry(k, row.offset, row.size, row.hash)];
    assert all[|chunks|].index == k && forall i | 0 <= i < |chunks| :: all[i] == chunks[i];
    forall o | o in left - {k}
      ensures Signed(k) < Signed(o)
    {
      assert (id, k) in t.chunks && (id, o) in t.chunks;
      assert (id, k).1 < TWO_32 && (id, o).1 < TWO_32;
    }
    forall key | key in t.chunks && key.0 == id
      ensures key.1 in left - {k} || exists i :: 0 <= i < |all| && all[i].index == key.1
    {
      if key.1 == k {
        assert all[|chunks|].index == key.1;
      } else if key.1 !in left {
        var i :| 0 <= i < |chunks| && chunks[i].index == key.1;
        assert all[i].index == key.1;
      }
    }
  }

  lemma {:induction false} InsertFails(t: Tables, id: Str, chunks: seq<ChunkEntry>, k: nat)
    requires k <= |chunks| && InsertChunks(t, id, chunks[..k]).Err?
    ensures InsertChunks(t, id, chunks).Err?
  {
    if k < |chunks| {
      assert chunks[..|chunks| - 1][..k] == chunks[..k];
      InsertFails(t, id, chunks[..|chunks| - 1], k);
    } else {
      assert chunks[..k] == chunks;
    }
  }

  // ---------- What the transaction does ----------

  predicate DistinctIndexes(chunks: seq<ChunkEntry>) {
    forall i, j | 0 <= i < j < |chunks| :: chunks[i].index != chunks[j].index
  }

  /** The chunk rows of a file are exactly its chunks, by index. */
  ghost predicate OwnChunks(t: Tables, id: Str, chunks: seq<ChunkEntry>) {
    && (forall i | 0 <= i < |chunks| ::
          (id, chunks[i].index) in t.chunks && t.chunks[(id, chunks[i].index)] == ChunkRowOf(chunks[i]))
    && (forall k | k in t.chunks && k.0 == id :: exists i :: 0 <= i < |chunks| && chunks[i].index == k.1)
  }

  /** Chunk rows of ids outside these are as before. */
  ghost predicate OthersKeepChunks(t: Tables, u: Tables, ids: set<Str>) {
    forall k: (Str, nat) | k.0 !in ids ::
      (k in u.chunks <==> k in t.chunks) && (k in t.chunks ==> u.chunks[k] == t.chunks[k])
  }

  lemma DistinctSnoc(chunks: seq<ChunkEntry>, c: ChunkEntry)
    ensures DistinctIndexes(chunks + [c])
       <==> DistinctIndexes(chunks) && forall i | 0 <= i < |chunks| :: chunks[i].index != c.index
  {
    var all := chunks + [c];
    assert all[|chunks|] == c && forall i | 0 <= i < |chunks| :: all[i] == chunks[i];
  }

  lemma InsertsOne(t: Tables, id: Str, chunks: seq<ChunkEntry>, c: ChunkEntry)
    requires id in t.rows && OwnChunks(t, id, chunks)
    ensures var r := InsertChunk(t, id, c);
            && (r.Ok? <==> forall i | 0 <= i < |chunks| :: chunks[i].index != c.index)
            && (r.Ok? ==> OwnChunks(r.value, id, chunks + [c]) && OthersKeepChunks(t, r.value, {id}))
  {
    var all := chunks + [c];
    assert all[|chunks|] == c;
    assert forall i | 0 <= i < |chunks| :: all[i] == chunks[i];
  }

  /** Inserting chunks under an id that has none works exactly when their indexes differ, and adds exactly them. */
  lemma {:induction false} InsertsExactly(t: Tables, id: Str, chunks: seq<ChunkEntry>)
    requires id in t.rows && forall k | k in t.chunks :: k.0 != id
    ensures var r := InsertChunks(t, id, chunks);
            && (r.Ok? <==> DistinctIndexes(chunks))
            && (r.Ok? ==> r.value.rows == t.rows && OwnChunks(r.value, id, chunks) && OthersKeepChunks(t, r.value, {id}))
  {
    if chunks != [] {
      var front, c := chunks[..|chunks| - 1], chunks[|chunks| - 1];
      InsertsExactly(t, id, front);
      assert front + [c] == chunks;
      DistinctSnoc(front, c);
      hide OwnChunks, DistinctIndexes;
      var before := InsertChunks(t, id, front);
      if before.Ok? {
        InsertsOne(before.value, id, front, c);
      }
    }
  }

  /** The row with the empty id, which the transaction takes for no row at all, holds this path. */
  predicate BlankAt(t: Tables, path: Path) {
    [] in t.rows && t.rows[[]].absolutePath == path
  }

  /** The rows after a successful transaction: the path's old row goes, the file's row comes. */
  function NewRows(rows: map<Str, FileRow>, f: FileRecord): map<Str, FileRow> {
    (map id | id in rows && rows[id].absolutePath != f.absolutePath :: rows[id])[f.fileId := RowOf(f)]
  }

  /** The ids whose rows and chunks a transaction for f may touch. */
  ghost function Touched(t: Tables, f: FileRecord): set<Str> {
    {f.fileId} + if IdAt(t, f.absolutePath).Some? then {IdAt(t, f.absolutePath).value} else {}
  }

  lemma RowWritten(t: Tables, f: FileRecord)
    requires Valid(t)
    ensures var r := WriteRow(t, f);
            && (r.Ok? <==> f.fileId == [] || !BlankAt(t, f.absolutePath))
            && (r.Ok? ==>
                  && r.value.rows == NewRows(t.rows, f) && OthersKeepChunks(t, r.value, Touched(t, f))
                  && forall k | k in r.value.chunks :: k.0 in r.value.rows && k.0 != f.fileId)
  {
    var existing := IdAt(t, f.absolutePath);
    if existing.Some? && existing.value != [] && existing.value != f.fileId {
      var u := WithoutPath(WithoutChunks(t, existing.value), f.absolutePath);
      assert forall id | id in t.rows && t.rows[id].absolutePath == f.absolutePath :: id == existing.value;
      assert !PathTaken(u, f.fileId, f.absolutePath);
    } else if existing.Some? && existing.value != f.fileId {
      assert PathTaken(t, f.fileId, f.absolutePath);
    } else {
      assert !PathTaken(t, f.fileId, f.absolutePath);
    }
  }

  /**
   The transaction fails only for a repeated chunk index or a row with an empty id at the path. Otherwise both keys and
   every chunk row's owner stay in order, the file has its row and exactly its chunks, and other files are untouched.
   */
  lemma UpsertIsExact(t: Tables, f: FileRecord)
    requires Valid(t)
    ensures Upsert(t, f).Ok? <==> DistinctIndexes(f.chunks) && (f.fileId == [] || !BlankAt(t, f.absolutePath))
    ensures Upsert(t, f).Ok? ==>
              var u := Upsert(t, f).value;
              && Valid(u) && u.rows == NewRows(t.rows, f)
              && OwnChunks(u, f.fileId, f.chunks) && OthersKeepChunks(t, u, Touched(t, f))
  {
    hide WriteRow, BlankAt, OwnChunks, DistinctIndexes, InsertChunks;
    RowWritten(t, f);
    if WriteRow(t, f).Ok? {
      InsertsExactly(WriteRow(t, f).value, f.fileId, f.chunks);
    }
  }

  /** A file whose id and path are both other than f's keeps its row and its chunk rows. */
  lemma OtherFilesUntouched(t: Tables, f: FileRecord, id: Str)
    requires Valid(t) && Upsert(t, f).Ok?
    requires id in t.rows && id != f.fileId && t.rows[id].absolutePath != f.absolutePath
    ensures var u := Upsert(t, f).value;
            && id in u.rows && u.rows[id] == t.rows[id]
            && forall i: nat ::
                 && ((id, i) in u.chunks <==> (id, i) in t.chunks)
                 && ((id, i) in t.chunks ==> u.chunks[(id, i)] == t.chunks[(id, i)])
  {
    hide Upsert;
    UpsertIsExact(t, f);
    assert id !in Touched(t, f);
    forall i: nat
      ensures (id, i) in Upsert(t, f).value.chunks <==> (id, i) in t.chunks
      ensures (id, i) in t.chunks ==> Upsert(t, f).value.chunks[(id, i)] == t.chunks[(id, i)]
    {
      assert (id, i).0 !in Touched(t, f);
    }
  }

  lemma UpsertKeepsNarrow(t: Tables, f: FileRecord)
    requires Valid(t) && Narrow(t) && Upsert(t, f).Ok? && forall c | c in f.chunks :: c.index < TWO_32
    ensures Narrow(Upsert(t, f).value)
  {
    UpsertIsExact(t, f);
    hide Upsert;
    var u := Upsert(t, f).value;
    forall k | k in u.chunks
      ensures k.1 < TWO_32
    {
      if k.0 == f.fileId {
        var i :| 0 <= i < |f.chunks| && f.chunks[i].index == k.1;
        assert f.chunks[i] in f.chunks;
      } else {
        assert k.0 in u.rows && k.0 !in Touched(t, f) && k in t.chunks;
      }
    }
  }

  // ---------- Whole runs ----------

  /** The tables after a list of transactions, each rolled back if it fails. */
  ghost function AfterAll(t: Tables, files: seq<FileRecord>): Tables {
    if files == [] then t
    else
      var before := AfterAll(t, files[..|files| - 1]);
      var r := Upsert(before, files[|files| - 1]);
      if r.Ok? then r.value else before
  }

  lemma {:induction false} RunsStayValid(t: Tables, files: seq<FileRecord>)
    requires Valid(t)
    ensures Valid(AfterAll(t, files))
  {
    hide Upsert, Valid;
    if files != [] {
      RunsStayValid(t, files[..|files| - 1]);
      UpsertIsExact(AfterAll(t, files[..|files| - 1]), files[|files| - 1]);
    }
  }

  /** What the chunker and the scanner write: an id, and chunks with different indexes. */
  predicate Regular(f: FileRecord) { f.fileId != [] && DistinctIndexes(f.chunks) }

  /** No transaction of a regular run fails: the path key is never violated. */
  lemma {:induction false} RegularRunsSucceed(files: seq<FileRecord>, f: FileRecord)
    requires Regular(f) && forall g | g in files :: Regular(g)
    ensures [] !in AfterAll(EMPTY, files).rows && Upsert(AfterAll(EMPTY, files), f).Ok?
  {
    hide Upsert;
    var t := AfterAll(EMPTY, files);
    RunsStayValid(EMPTY, files);
    if files != [] {
      var front, g := files[..|files| - 1], files[|files| - 1];
      RegularRunsSucceed(front, g);
      RunsStayValid(EMPTY, front);
      UpsertIsExact(AfterAll(EMPTY, front), g);
    }
    UpsertIsExact(t, f);
  }

  // ---------- Reading back ----------

  /** A 32-bit index as SQLite stores and orders it. */
  function Signed(index: nat): int {
    if index < TWO_32 / 2 then index else index - TWO_32
  }

  predicate InOrder(chunks: seq<ChunkEntry>) {
    forall i, j | 0 <= i < j < |chunks| :: Signed(chunks[i].index) < Signed(chunks[j].index)
  }

  /** In a listing the indexes from 2^31 on come first, being negative to SQLite; within each half they rise. */
  lemma ListedHalves(chunks: seq<ChunkEntry>, i: nat, j: nat)
    requires InOrder(chunks) && i < j < |chunks| && chunks[i].index < TWO_32 && chunks[j].index < TWO_32
    ensures chunks[i].index >= TWO_32 / 2 || chunks[j].index < TWO_32 / 2
    ensures (chunks[i].index < TWO_32 / 2 <==> chunks[j].index < TWO_32 / 2) ==> chunks[i].index < chunks[j].index
  {
  }

  /** The list SELECT ... FROM chunk_records WHERE file_id = id ORDER BY chunk_index returns. */
  ghost predicate Lists(t: Tables, id: Str, chunks: seq<ChunkEntry>) {
    OwnChunks(t, id, chunks) && InOrder(chunks)
  }

  predicate Within(a: seq<ChunkEntry>, b: seq<ChunkEntry>) {
    forall c | c in a :: c in b
  }

  lemma {:induction false} SameChunksSameOrder(a: seq<ChunkEntry>, b: seq<ChunkEntry>)
    requires InOrder(a) && InOrder(b) && Within(a, b) && Within(b, a)
    ensures a == b
  {
    if a != [] {
      assert a[0] in a;
    }
    if b != [] {
      assert b[0] in b;
    }
    if a != [] && b != [] {
      LastsAgree(a, b);
      FrontsAgree(a, b);
      FrontsAgree(b, a);
      SameChunksSameOrder(a[..|a| - 1], b[..|b| - 1]);
      assert a == a[..|a| - 1] + [a[|a| - 1]] && b == b[..|b| - 1] + [b[|b| - 1]];
    }
  }

  lemma LastsAgree(a: seq<ChunkEntry>, b: seq<ChunkEntry>)
    requires a != [] && b != [] && InOrder(a) && InOrder(b) && Within(a, b) && Within(b, a)
    ensures a[|a| - 1] == b[|b| - 1]
  {
    var x, y := a[|a| - 1], b[|b| - 1];
    assert x in a && y in b;
    var i :| 0 <= i < |b| && b[i] == x;
    var j :| 0 <= j < |a| && a[j] == y;
  }

  lemma FrontsAgree(a: seq<ChunkEntry>, b: seq<ChunkEntry>)
    requires a != [] && b != [] && a[|a| - 1] == b[|b| - 1] && InOrder(a) && Within(a, b)
    ensures InOrder(a[..|a| - 1]) && Within(a[..|a| - 1], b[..|b| - 1])
  {
    var a', b' := a[..|a| - 1], b[..|b| - 1];
    forall c | c in a'
      ensures c in b'
    {
      var i :| 0 <= i < |a'| && a'[i] == c;
      assert a[i] == c && c in a;
      var j :| 0 <= j < |b| && b[j] == c;
      assert b'[j] == c;
    }
  }

  lemma ListingIsUnique(t: Tables, id: Str, a: seq<ChunkEntry>, b: seq<ChunkEntry>)
    requires Lists(t, id, a) && Lists(t, id, b)
    ensures a == b
  {
    ListedIn(t, id, a, b);
    ListedIn(t, id, b, a);
    SameChunksSameOrder(a, b);
  }

  lemma ListedIn(t: Tables, id: Str, a: seq<ChunkEntry>, b: seq<ChunkEntry>)
    requires OwnChunks(t, id, a) && OwnChunks(t, id, b)
    ensures Within(a, b)
  {
    forall c | c in a
      ensures c in b
    {
      var i :| 0 <= i < |a| && a[i] == c;
      assert (id, c.index) in t.chunks;
      assert (id, c.index).0 == id && (id, c.index).1 == c.index;
      var j :| 0 <= j < |b| && b[j].index == c.index;
      assert b[j] == c;
    }
  }

  /** GetFileByPath and GetFile: what they may return. */
  ghost predicate Fetches(t: Tables, id: Option<Str>, r: Option<FileRecord>) {
    if id.None? || id.value !in t.rows then r.None?
    else
      var row := t.rows[id.value];
      && r.Some? && Lists(t, id.value, r.value.chunks)
      && r.value == FileRecord(
           id.value, row.relativePath, row.absolutePath, row.size, row.mtime, row.mode, row.rootHash, r.value.chunks)
  }

  /** A file upserted is what both lookups return, chunks and all. */
  lemma UpsertedIsFetched(t: Tables, f: FileRecord, r: Option<FileRecord>)
    requires Valid(t) && Upsert(t, f).Ok? && InOrder(f.chunks)
    ensures var u := Upsert(t, f).value;
            && IdAt(u, f.absolutePath) == Some(f.fileId)
            && (Fetches(u, Some(f.fileId), r) <==> r == Some(f))
  {
    hide Upsert;
    UpsertIsExact(t, f);
    var u := Upsert(t, f).value;
    assert u.rows[f.fileId] == RowOf(f);
    hide Valid, NewRows, OthersKeepChunks, OwnChunks;
    if Fetches(u, Some(f.fileId), r) {
      ListingIsUnique(u, f.fileId, r.value.chunks, f.chunks);
    }
  }

  /** What the chunker yields is upserted and fetched back as it is, up to 2^31 chunks. */
  lemma CutIsInOrder(h: Hash, content: Bytes, chunkSize: nat)
    requires ChunkCount(|content|, chunkSize) <= TWO_32 / 2
    ensures InOrder(Cut(h, content, chunkSize)) && DistinctIndexes(Cut(h, content, chunkSize))
  {
    hide ChunkCount, ChunkAt;
    var chunks := Cut(h, content, chunkSize);
    forall i | 0 <= i < |chunks|
      ensures chunks[i].index == i
    {
      CutIndexed(h, content, chunkSize, i);
      CutIndex(h, content, chunkSize, i);
    }
  }

  /** The record a path ends with: the last file written there, unless its id was written to another path later. */
  function Winner(files: seq<FileRecord>, path: Path): (r: Option<FileRecord>)
    ensures r.Some? ==> r.value in files && r.value.absolutePath == path
  {
    if files == [] then None
    else
      var f, before := files[|files| - 1], Winner(files[..|files| - 1], path);
      assert files == files[..|files| - 1] + [f];
      if f.absolutePath == path then Some(f)
      else if before.Some? && before.value.fileId == f.fileId then None
      else before
  }

  /** A transaction for another path takes the row of this path away exactly when it has the same id. */
  lemma OtherPathAfter(t: Tables, f: FileRecord, path: Path)
    requires Valid(t) && Upsert(t, f).Ok? && f.absolutePath != path
    ensures var u, id := Upsert(t, f).value, IdAt(t, path);
            && IdAt(u, path) == (if id == Some(f.fileId) then None else id)
            && (IdAt(u, path).Some? ==> u.rows[id.value] == t.rows[id.value])
  {
    hide Upsert;
    UpsertIsExact(t, f);
    var u, id := Upsert(t, f).value, IdAt(t, path);
    if id.Some? && id.value != f.fileId {
      assert u.rows[id.value] == t.rows[id.value];
    }
  }

  /** After any scan, each path is found with its winner's row: one content at two paths is indexed under the later one. */
  lemma {:induction false} ScanKeepsWinners(files: seq<FileRecord>, path: Path)
    requires forall f | f in files :: Regular(f)
    ensures var t, w := AfterAll(EMPTY, files), Winner(files, path);
            && IdAt(t, path) == (if w.Some? then Some(w.value.fileId) else None)
            && (w.Some? ==> w.value.fileId in t.rows && t.rows[w.value.fileId] == RowOf(w.value))
  {
    hide Upsert;
    if files != [] {
      var front, f := files[..|files| - 1], files[|files| - 1];
      ScanKeepsWinners(front, path);
      RegularRunsSucceed(front, f);
      RunsStayValid(EMPTY, front);
      var t := AfterAll(EMPTY, front);
      if f.absolutePath == path {
        UpsertIsExact(t, f);
        assert Upsert(t, f).value.rows[f.fileId] == RowOf(f);
      } else {
        OtherPathAfter(t, f, path);
      }
    }
  }

  /** files[k] is the record its path ends with if and only if no later record has its path or its id. */
  ghost predicate Lasts(files: seq<FileRecord>, k: nat)
    requires k < |files|
  {
    forall j | k < j < |files| :: files[j].absolutePath != files[k].absolutePath && files[j].fileId != files[k].fileId
  }

  lemma {:induction false} LastingWins(files: seq<FileRecord>, k: nat)
    requires k < |files| && Lasts(files, k)
    ensures Winner(files, files[k].absolutePath) == Some(files[k])
  {
    if k < |files| - 1 {
      LastingWins(files[..|files| - 1], k);
    }
  }

  lemma {:induction false} WinnersLast(files: seq<FileRecord>, path: Path) returns (k: nat)
    requires Winner(files, path).Some?
    ensures k < |files| && Lasts(files, k) && Winner(files, path) == Some(files[k])
  {
    var n := |files| - 1;
    if files[n].absolutePath == path {
      k := n;
    } else {
      k := WinnersLast(files[..n], path);
    }
  }

  /**
   After any scan a path is found if and only if some record of it is followed by no record of its path or its id; then
   what is found is that record's row.
   */
  lemma ScanFinds(files: seq<FileRecord>, path: Path)
    requires forall f | f in files :: Regular(f)
    ensures var t := AfterAll(EMPTY, files);
            && (IdAt(t, path).Some? <==> exists k :: 0 <= k < |files| && files[k].absolutePath == path && Lasts(files, k))
            && (forall k | 0 <= k < |files| && files[k].absolutePath == path && Lasts(files, k) ::
                  && IdAt(t, path) == Some(files[k].fileId)
                  && files[k].fileId in t.rows && t.rows[files[k].fileId] == RowOf(files[k]))
  {
    ScanKeepsWinners(files, path);
    if Winner(files, path).Some? {
      var k := WinnersLast(files, path);
      assert files[k].absolutePath == path && Lasts(files, k);
    }
    forall k | 0 <= k < |files| && files[k].absolutePath == path && Lasts(files, k)
      ensures Winner(files, path) == Some(files[k])
    {
      LastingWins(files, k);
    }
  }

  /** Two files with one content: the one scanned first is not found. */
  lemma SameContentTwice(a: FileRecord, b: FileRecord)
    requires Regular(a) && Regular(b) && a.fileId == b.fileId && a.absolutePath != b.absolutePath
    ensures IdAt(AfterAll(EMPTY, [a, b]), a.absolutePath) == None
    ensures IdAt(AfterAll(EMPTY, [a, b]), b.absolutePath) == Some(b.fileId)
  {
    ScanFinds([a, b], a.absolutePath);
    ScanFinds([a, b], b.absolutePath);
    assert [a, b][1] == b && Lasts([a, b], 1);
    assert !Lasts([a, b], 0);
  }

  // ---------- Every row comes from a record ----------

  /** The tables hold this record: its row and exactly its chunks. */
  ghost predicate Holds(t: Tables, f: FileRecord) {
    f.fileId in t.rows && t.rows[f.fileId] == RowOf(f) && OwnChunks(t, f.fileId, f.chunks)
  }

  ghost predicate Recorded(t: Tables, files: seq<FileRecord>) {
    forall id | id in t.rows :: exists f :: f in files && f.fileId == id && Holds(t, f)
  }

  lemma OtherHolds(t: Tables, f: FileRecord, g: FileRecord)
    requires Valid(t) && Upsert(t, f).Ok? && Holds(t, g)
    requires g.fileId != f.fileId && g.absolutePath != f.absolutePath
    ensures Holds(Upsert(t, f).value, g)
  {
    hide Upsert, Valid;
    OtherFilesUntouched(t, f, g.fileId);
    var u := Upsert(t, f).value;
    forall i | 0 <= i < |g.chunks|
      ensures (g.fileId, g.chunks[i].index) in u.chunks
      ensures u.chunks[(g.fileId, g.chunks[i].index)] == ChunkRowOf(g.chunks[i])
    {
      assert (g.fileId, g.chunks[i].index) in t.chunks;
    }
    forall k | k in u.chunks && k.0 == g.fileId
      ensures exists i :: 0 <= i < |g.chunks| && g.chunks[i].index == k.1
    {
      assert k == (g.fileId, k.1) && k in t.chunks;
    }
  }

  /** Every row is that of a scanned record, or an older one at a path the scan did not meet. */
  ghost predicate FromScan(t: Tables, u: Tables, files: seq<FileRecord>) {
    forall id | id in u.rows ::
      || (exists f :: f in files && f.fileId == id && Holds(u, f))
      || (id in t.rows && u.rows[id] == t.rows[id]
          && forall f | f in files :: f.absolutePath != t.rows[id].absolutePath)
  }

  lemma UpsertFromScan(t: Tables, u: Tables, files: seq<FileRecord>, f: FileRecord)
    requires Valid(u) && FromScan(t, u, files) && Upsert(u, f).Ok?
    ensures FromScan(t, Upsert(u, f).value, files + [f])
  {
    UpsertIsExact(u, f);
    hide Upsert, Valid, OwnChunks, OthersKeepChunks;
    var v := Upsert(u, f).value;
    forall id | id in v.rows
      ensures || (exists g :: g in files + [f] && g.fileId == id && Holds(v, g))
              || (id in t.rows && v.rows[id] == t.rows[id]
                  && forall g | g in files + [f] :: g.absolutePath != t.rows[id].absolutePath)
    {
      if id == f.fileId {
        assert f in files + [f] && Holds(v, f);
      } else if g :| g in files && g.fileId == id && Holds(u, g) {
        OtherHolds(u, f, g);
        assert g in files + [f];
      }
    }
  }

  /** After a scan each row is that of a scanned record with its chunks, or an older row at a path not scanned. */
  lemma {:induction false} ScanReplaces(t: Tables, files: seq<FileRecord>)
    requires Valid(t) && [] !in t.rows && forall f | f in files :: Regular(f)
    ensures var u := AfterAll(t, files);
            Valid(u) && [] !in u.rows && FromScan(t, u, files)
  {
    hide Upsert, Valid, FromScan;
    if files == [] {
      NothingScanned(t);
    } else {
      var front, f := files[..|files| - 1], files[|files| - 1];
      assert files == front + [f] && f in files;
      ScanReplaces(t, front);
      var before := AfterAll(t, front);
      UpsertIsExact(before, f);
      UpsertFromScan(t, before, front, f);
    }
  }

  lemma NothingScanned(t: Tables)
    ensures FromScan(t, t, [])
  {
  }

  /** When no row is older than the scan, the tables hold scanned records only. */
  lemma FullScanRecords(t: Tables, files: seq<FileRecord>)
    requires Valid(t) && [] !in t.rows && forall f | f in files :: Regular(f)
    requires forall id | id in t.rows :: exists f :: f in files && f.absolutePath == t.rows[id].absolutePath
    ensures Recorded(AfterAll(t, files), files)
  {
    ScanReplaces(t, files);
  }

  /** What ListFiles returns: each row's file once, in the order of the paths. */
  ghost predicate ListsFiles(t: Tables, records: seq<FileRecord>) {
    && (forall i | 0 <= i < |records| :: Fetches(t, Some(records[i].fileId), Some(records[i])))
    && (forall i, j | 0 <= i < j < |records| ::
          && records[i].fileId != records[j].fileId && Before(records[i].absolutePath, records[j].absolutePath))
    && (forall id | id in t.rows :: exists i :: 0 <= i < |records| && records[i].fileId == id)
  }

  /** What is fetched under an id is the record that was stored there. */
  lemma FetchedIsHeld(t: Tables, r: FileRecord, f: FileRecord)
    requires Fetches(t, Some(r.fileId), Some(r)) && Holds(t, f) && r.fileId == f.fileId && InOrder(f.chunks)
    ensures r == f
  {
    ListingIsUnique(t, f.fileId, r.chunks, f.chunks);
  }

  lemma ListedAreRecorded(t: Tables, records: seq<FileRecord>, files: seq<FileRecord>)
    requires ListsFiles(t, records) && Recorded(t, files) && forall f | f in files :: InOrder(f.chunks)
    ensures forall r | r in records :: r in files
  {
    forall r | r in records
      ensures r in files
    {
      var i :| 0 <= i < |records| && records[i] == r;
      assert Fetches(t, Some(r.fileId), Some(r));
      var f :| f in files && f.fileId == r.fileId && Holds(t, f);
      FetchedIsHeld(t, r, f);
    }
  }

  // ---------- One row ----------

  /** The index holds this file and no other. */
  ghost predicate HoldsOnly(t: Tables, f: FileRecord) {
    t.rows == map[f.fileId := RowOf(f)] && OwnChunks(t, f.fileId, f.chunks)
  }

  lemma HoldsOnlyLists(t: Tables, f: FileRecord)
    requires HoldsOnly(t, f) && InOrder(f.chunks)
    ensures ListsFiles(t, [f]) && Fetches(t, Some(f.fileId), Some(f))
    ensures forall path :: IdAt(t, path) == if path == f.absolutePath then Some(f.fileId) else None
  {
    hide OwnChunks, InOrder;
    assert Fetches(t, Some(f.fileId), Some(f)) && [f][0].fileId == f.fileId;
  }

  /** The last record of a scan has its row and chunks. */
  lemma LastIsKept(t: Tables, front: seq<FileRecord>, f: FileRecord)
    requires Valid(t) && [] !in t.rows && Regular(f) && forall g | g in front :: Regular(g)
    ensures Holds(AfterAll(t, front + [f]), f)
  {
    assert (front + [f])[..|front|] == front;
    ScanReplaces(t, front);
    hide Upsert, Valid, FromScan;
    UpsertIsExact(AfterAll(t, front), f);
  }

  lemma OneId(t: Tables, files: seq<FileRecord>, id: Str)
    requires Recorded(t, files) && forall f | f in files :: f.fileId == id
    ensures forall other | other in t.rows :: other == id
  {
    hide Holds;
  }

  /** A scan that meets files of one content only, and every old row's path, leaves the row of the last. */
  lemma OneContent(t: Tables, front: seq<FileRecord>, f: FileRecord)
    requires Valid(t) && [] !in t.rows
    requires forall g | g in front + [f] :: Regular(g) && g.fileId == f.fileId
    requires forall id | id in t.rows :: exists g :: g in front + [f] && g.absolutePath == t.rows[id].absolutePath
    ensures HoldsOnly(AfterAll(t, front + [f]), f)
  {
    hide AfterAll, Valid, Regular, OwnChunks, Recorded;
    var files := front + [f];
    assert f in files && forall g | g in front :: g in files;
    FullScanRecords(t, files);
    LastIsKept(t, front, f);
    OneId(AfterAll(t, files), files, f.fileId);
  }

  /** A file stored in place of the only one, under the same id. */
  lemma UpsertReplaces(t: Tables, f: FileRecord)
    requires Valid(t) && (t.rows == map[] || exists g :: HoldsOnly(t, g) && g.fileId == f.fileId) && Upsert(t, f).Ok?
    ensures Valid(Upsert(t, f).value) && HoldsOnly(Upsert(t, f).value, f)
  {
    UpsertIsExact(t, f);
    hide Upsert, OwnChunks, Valid;
  }
}
