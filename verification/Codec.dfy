/** ProtocolCodec: every message as a frame, and back. */
module Codec {
  import opened Base
  import opened Decimal
  import opened Wire
  import opened Chunks
  import opened Diff

  const HELLO: byte := 0
  const MANIFEST_SUMMARY: byte := 1
  const MISSING_CHUNKS_REQUEST: byte := 2
  const CHUNK_DATA: byte := 3
  const SYNC_ACK: byte := 4
  const ERROR: byte := 5

  datatype Frame = Frame(messageType: byte, payload: Str)

  datatype Hello = Hello(nodeId: Str, deviceName: Str, version: Str)
  datatype ChunkHeader = ChunkHeader(fileId: Str, hash: Str, index: nat, offset: nat, payloadSize: nat)
  datatype ChunkData = ChunkData(header: ChunkHeader, bytes: Str)
  datatype SyncAck = SyncAck(fileId: Str, relativePath: Path, success: bool, detail: Str)

  // ---------- The texts ----------

  function HelloText(m: Hello): Str {
    StringText(m.nodeId) + StringText(m.deviceName) + StringText(m.version)
  }

  function ChunkText(c: ChunkEntry): Str {
    NumberText(c.index) + NumberText(c.offset) + NumberText(c.size) + StringText(c.hash)
  }

  function ChunksText(chunks: seq<ChunkEntry>): Str {
    if chunks == [] then []
    else ChunksText(chunks[..|chunks| - 1]) + ChunkText(chunks[|chunks| - 1])
  }

  function SummaryText(m: ManifestEntry): Str {
    StringText(m.fileId) + StringText(m.relativePath) + StringText(m.rootHash) + NumberText(m.size) + NumberText(m.mtime)
  }

  function FileText(f: ManifestFile): Str {
    SummaryText(f.summary) + NumberText(|f.chunks|) + ChunksText(f.chunks)
  }

  function FilesText(files: seq<ManifestFile>): Str {
    if files == [] then [] else FilesText(files[..|files| - 1]) + FileText(files[|files| - 1])
  }

  function ManifestText(files: seq<ManifestFile>): Str {
    NumberText(|files|) + FilesText(files)
  }

  function RequestText(m: ChunksRequest): Str {
    StringText(m.fileId) + StringText(m.relativePath) + StringText(m.expectedRootHash)
    + NumberText(|m.missing|) + ChunksText(m.missing)
  }

  function HeaderText(h: ChunkHeader): Str {
    StringText(h.fileId) + StringText(h.hash) + NumberText(h.index) + NumberText(h.offset) + NumberText(h.payloadSize)
  }

  function DataText(m: ChunkData): Str { HeaderText(m.header) + StringText(m.bytes) }

  function AckText(m: SyncAck): Str {
    StringText(m.fileId) + StringText(m.relativePath) + BoolText(m.success) + StringText(m.detail)
  }

  // ---------- The parsers, as functions ----------

  function ParseHello(b: Str, cursor: nat): Parsed<Hello> {
    var nodeId :- ParseString(b, cursor);
    var deviceName :- ParseString(b, nodeId.next);
    var version :- ParseString(b, deviceName.next);
    Got(Hello(nodeId.value, deviceName.value, version.value), version.next)
  }

  function ParseChunk(b: Str, cursor: nat): Parsed<ChunkEntry> {
    var index :- ParseNumber(b, cursor);
    var offset :- ParseNumber(b, index.next);
    var size :- ParseNumber(b, offset.next);
    var hash :- ParseString(b, size.next);
    Got(ChunkEntry(index.value % TWO_32, offset.value, size.value, hash.value), hash.next)
  }

  /** The first n chunks of a list. */
  function ParseChunks(b: Str, cursor: nat, n: nat): (r: Parsed<seq<ChunkEntry>>)
    ensures r.Got? ==> |r.value| == n
  {
    if n == 0 then Got([], cursor)
    else
      var front :- ParseChunks(b, cursor, n - 1);
      var last :- ParseChunk(b, front.next);
      Got(front.value + [last.value], last.next)
  }

  /** A summary with no chunk count yet. */
  function ParseSummary(b: Str, cursor: nat): Parsed<ManifestEntry> {
    var fileId :- ParseString(b, cursor);
    var relativePath :- ParseString(b, fileId.next);
    var rootHash :- ParseString(b, relativePath.next);
    var size :- ParseNumber(b, rootHash.next);
    var mtime :- ParseNumber(b, size.next);
    Got(ManifestEntry(fileId.value, relativePath.value, rootHash.value, size.value, mtime.value, 0), mtime.next)
  }

  /** The chunk count is a 32-bit number. */
  function ParseFile(b: Str, cursor: nat): Parsed<ManifestFile> {
    var summary :- ParseSummary(b, cursor);
    var count :- ParseNumber(b, summary.next);
    var chunks :- ParseChunks(b, count.next, count.value % TWO_32);
    Got(ManifestFile(summary.value.(chunkCount := count.value % TWO_32), chunks.value), chunks.next)
  }

  function ParseFiles(b: Str, cursor: nat, n: nat): (r: Parsed<seq<ManifestFile>>)
    ensures r.Got? ==> |r.value| == n
  {
    if n == 0 then Got([], cursor)
    else
      var front :- ParseFiles(b, cursor, n - 1);
      var last :- ParseFile(b, front.next);
      Got(front.value + [last.value], last.next)
  }

  function ParseManifest(b: Str, cursor: nat): Parsed<seq<ManifestFile>> {
    var count :- ParseNumber(b, cursor);
    ParseFiles(b, count.next, count.value)
  }

  function ParseRequest(b: Str, cursor: nat): Parsed<ChunksRequest> {
    var fileId :- ParseString(b, cursor);
    var relativePath :- ParseString(b, fileId.next);
    var rootHash :- ParseString(b, relativePath.next);
    var count :- ParseNumber(b, rootHash.next);
    var missing :- ParseChunks(b, count.next, count.value);
    Got(ChunksRequest(fileId.value, relativePath.value, rootHash.value, missing.value), missing.next)
  }

  function ParseHeader(b: Str, cursor: nat): Parsed<ChunkHeader> {
    var fileId :- ParseString(b, cursor);
    var hash :- ParseString(b, fileId.next);
    var index :- ParseNumber(b, hash.next);
    var offset :- ParseNumber(b, index.next);
    var payloadSize :- ParseNumber(b, offset.next);
    Got(ChunkHeader(fileId.value, hash.value, index.value % TWO_32, offset.value, payloadSize.value), payloadSize.next)
  }

  function ParseData(b: Str, cursor: nat): Parsed<ChunkData> {
    var header :- ParseHeader(b, cursor);
    var bytes :- ParseString(b, header.next);
    if |bytes.value| != header.value.payloadSize then Bad
    else Got(ChunkData(header.value, bytes.value), bytes.next)
  }

  function ParseAck(b: Str, cursor: nat): Parsed<SyncAck> {
    var fileId :- ParseString(b, cursor);
    var relativePath :- ParseString(b, fileId.next);
    var success :- ParseBool(b, relativePath.next);
    var detail :- ParseString(b, success.next);
    Got(SyncAck(fileId.value, relativePath.value, success.value, detail.value), detail.next)
  }

  /** The result of a Decode function: the type is required, and what follows the message is ignored. */
  function Decoded<T>(frame: Frame, messageType: byte, parsed: Parsed<T>): Result<T> {
    if frame.messageType == messageType && parsed.Got? then Ok(parsed.value) else Err
  }

  // ---------- Reading back ----------

  predicate ChunkFits(c: ChunkEntry) { c.index < TWO_32 && c.offset < TWO_64 && c.size < TWO_64 }

  predicate FieldsFit(f: ManifestFile) {
    f.summary.size < TWO_64 && f.summary.mtime < TWO_64 && forall c | c in f.chunks :: ChunkFits(c)
  }

  predicate FileFits(f: ManifestFile) { FieldsFit(f) && |f.chunks| < TWO_32 }

  lemma HelloAt(b: Str, cursor: nat, m: Hello)
    requires At(b, cursor, HelloText(m)) && |b| < TWO_64
    ensures ParseHello(b, cursor) == Got(m, cursor + |HelloText(m)|)
  {
    hide ParseString, StringText, At;
    var x, y, z := StringText(m.nodeId), StringText(m.deviceName), StringText(m.version);
    AtSplit(b, cursor, x + y, z);
    AtSplit(b, cursor, x, y);
    StringAt(b, cursor, m.nodeId);
    StringAt(b, cursor + |x|, m.deviceName);
    StringAt(b, cursor + |x| + |y|, m.version);
  }

  lemma ChunkReadsBack(b: Str, cursor: nat, c: ChunkEntry)
    requires At(b, cursor, ChunkText(c)) && |b| < TWO_64 && ChunkFits(c)
    ensures ParseChunk(b, cursor) == Got(c, cursor + |ChunkText(c)|)
  {
    hide ParseString, StringText, ParseNumber, NumberText, At;
    var w, x, y, z := NumberText(c.index), NumberText(c.offset), NumberText(c.size), StringText(c.hash);
    AtSplit(b, cursor, w + x + y, z);
    AtSplit(b, cursor, w + x, y);
    AtSplit(b, cursor, w, x);
    NumberAt(b, cursor, c.index);
    NumberAt(b, cursor + |w|, c.offset);
    NumberAt(b, cursor + |w| + |x|, c.size);
    StringAt(b, cursor + |w| + |x| + |y|, c.hash);
  }

  lemma {:induction false} ChunksReadBack(b: Str, cursor: nat, chunks: seq<ChunkEntry>)
    requires At(b, cursor, ChunksText(chunks)) && |b| < TWO_64 && forall c | c in chunks :: ChunkFits(c)
    ensures ParseChunks(b, cursor, |chunks|) == Got(chunks, cursor + |ChunksText(chunks)|)
  {
    hide ParseChunk, ChunkText, At, ChunkFits;
    if chunks != [] {
      var front, last := chunks[..|chunks| - 1], chunks[|chunks| - 1];
      assert front + [last] == chunks;
      assert ChunksText(chunks) == ChunksText(front) + ChunkText(last);
      hide ChunksText;
      AtSplit(b, cursor, ChunksText(front), ChunkText(last));
      ChunksReadBack(b, cursor, front);
      ChunkReadsBack(b, cursor + |ChunksText(front)|, last);
    }
  }

  lemma SummaryReadsBack(b: Str, cursor: nat, m: ManifestEntry)
    requires At(b, cursor, SummaryText(m)) && |b| < TWO_64 && m.size < TWO_64 && m.mtime < TWO_64
    ensures ParseSummary(b, cursor) == Got(m.(chunkCount := 0), cursor + |SummaryText(m)|)
  {
    hide ParseString, StringText, ParseNumber, NumberText, At;
    var v, w, x := StringText(m.fileId), StringText(m.relativePath), StringText(m.rootHash);
    var y, z := NumberText(m.size), NumberText(m.mtime);
    AtSplit(b, cursor, v + w + x + y, z);
    AtSplit(b, cursor, v + w + x, y);
    AtSplit(b, cursor, v + w, x);
    AtSplit(b, cursor, v, w);
    StringAt(b, cursor, m.fileId);
    StringAt(b, cursor + |v|, m.relativePath);
    StringAt(b, cursor + |v| + |w|, m.rootHash);
    NumberAt(b, cursor + |v| + |w| + |x|, m.size);
    NumberAt(b, cursor + |v| + |w| + |x| + |y|, m.mtime);
  }

  /** What the other side sees of a manifest file: its chunk count is the number of chunks sent. */
  function Seen(f: ManifestFile): ManifestFile {
    f.(summary := f.summary.(chunkCount := |f.chunks|))
  }

  /** A manifest file reads back if and only if it has fewer than 2^32 chunks: the reader's count is 32 bits wide. */
  lemma FileReadsBack(b: Str, cursor: nat, f: ManifestFile)
    requires At(b, cursor, FileText(f)) && |b| < TWO_64 && FieldsFit(f)
    ensures ParseFile(b, cursor) == Got(Seen(f), cursor + |FileText(f)|) <==> FileFits(f)
  {
    hide ParseSummary, SummaryText, ParseNumber, NumberText, ParseChunks, ChunksText, ChunkFits, At;
    var x, y, z := SummaryText(f.summary), NumberText(|f.chunks|), ChunksText(f.chunks);
    AtSplit(b, cursor, x + y, z);
    AtSplit(b, cursor, x, y);
    SummaryReadsBack(b, cursor, f.summary);
    NumberAt(b, cursor + |x|, |f.chunks|);
    ChunksReadBack(b, cursor + |x| + |y|, f.chunks);
    if !FileFits(f) && ParseFile(b, cursor).Got? {
      assert |ParseFile(b, cursor).value.chunks| == |f.chunks| % TWO_32 < |f.chunks|;
    }
  }

  function AllSeen(files: seq<ManifestFile>): (s: seq<ManifestFile>)
    ensures |s| == |files| && forall i | 0 <= i < |files| :: s[i] == Seen(files[i])
  {
    if files == [] then [] else AllSeen(files[..|files| - 1]) + [Seen(files[|files| - 1])]
  }

  lemma {:induction false} FilesReadBack(b: Str, cursor: nat, files: seq<ManifestFile>)
    requires At(b, cursor, FilesText(files)) && |b| < TWO_64 && forall f | f in files :: FileFits(f)
    ensures ParseFiles(b, cursor, |files|) == Got(AllSeen(files), cursor + |FilesText(files)|)
  {
    hide ParseFile, FileText, At, FieldsFit, Seen;
    if files != [] {
      var front, last := files[..|files| - 1], files[|files| - 1];
      assert FilesText(files) == FilesText(front) + FileText(last);
      assert FileFits(last);
      hide FilesText;
      AtSplit(b, cursor, FilesText(front), FileText(last));
      FilesReadBack(b, cursor, front);
      FileReadsBack(b, cursor + |FilesText(front)|, last);
    }
  }

  lemma ManifestReadsBack(b: Str, cursor: nat, files: seq<ManifestFile>)
    requires At(b, cursor, ManifestText(files)) && |b| < TWO_64 && |files| < TWO_64
    requires forall f | f in files :: FileFits(f)
    ensures ParseManifest(b, cursor) == Got(AllSeen(files), cursor + |ManifestText(files)|)
  {
    hide ParseFiles, FilesText, ParseNumber, NumberText, At, FileFits;
    AtSplit(b, cursor, NumberText(|files|), FilesText(files));
    NumberAt(b, cursor, |files|);
    FilesReadBack(b, cursor + |NumberText(|files|)|, files);
  }

  lemma RequestReadsBack(b: Str, cursor: nat, m: ChunksRequest)
    requires At(b, cursor, RequestText(m)) && |b| < TWO_64 && |m.missing| < TWO_64
    requires forall c | c in m.missing :: ChunkFits(c)
    ensures ParseRequest(b, cursor) == Got(m, cursor + |RequestText(m)|)
  {
    hide ParseString, StringText, ParseNumber, NumberText, ParseChunks, ChunksText, ChunkFits, At;
    var v, w, x := StringText(m.fileId), StringText(m.relativePath), StringText(m.expectedRootHash);
    var y, z := NumberText(|m.missing|), ChunksText(m.missing);
    AtSplit(b, cursor, v + w + x + y, z);
    AtSplit(b, cursor, v + w + x, y);
    AtSplit(b, cursor, v + w, x);
    AtSplit(b, cursor, v, w);
    StringAt(b, cursor, m.fileId);
    StringAt(b, cursor + |v|, m.relativePath);
    StringAt(b, cursor + |v| + |w|, m.expectedRootHash);
    NumberAt(b, cursor + |v| + |w| + |x|, |m.missing|);
    ChunksReadBack(b, cursor + |v| + |w| + |x| + |y|, m.missing);
  }

  predicate HeaderFits(h: ChunkHeader) { h.index < TWO_32 && h.offset < TWO_64 && h.payloadSize < TWO_64 }

  lemma HeaderReadsBack(b: Str, cursor: nat, h: ChunkHeader)
    requires At(b, cursor, HeaderText(h)) && |b| < TWO_64 && HeaderFits(h)
    ensures ParseHeader(b, cursor) == Got(h, cursor + |HeaderText(h)|)
  {
    hide ParseString, StringText, ParseNumber, NumberText, At;
    var v, w, x := StringText(h.fileId), StringText(h.hash), NumberText(h.index);
    var y, z := NumberText(h.offset), NumberText(h.payloadSize);
    AtSplit(b, cursor, v + w + x + y, z);
    AtSplit(b, cursor, v + w + x, y);
    AtSplit(b, cursor, v + w, x);
    AtSplit(b, cursor, v, w);
    StringAt(b, cursor, h.fileId);
    StringAt(b, cursor + |v|, h.hash);
    NumberAt(b, cursor + |v| + |w|, h.index);
    NumberAt(b, cursor + |v| + |w| + |x|, h.offset);
    NumberAt(b, cursor + |v| + |w| + |x| + |y|, h.payloadSize);
  }

  /** Chunk data comes back exactly when its header states its size. */
  lemma DataReadsBack(b: Str, cursor: nat, m: ChunkData)
    requires At(b, cursor, DataText(m)) && |b| < TWO_64 && HeaderFits(m.header)
    ensures ParseData(b, cursor) == if m.header.payloadSize == |m.bytes| then Got(m, cursor + |DataText(m)|) else Bad
  {
    hide ParseHeader, HeaderText, ParseString, StringText, At, HeaderFits;
    AtSplit(b, cursor, HeaderText(m.header), StringText(m.bytes));
    HeaderReadsBack(b, cursor, m.header);
    StringAt(b, cursor + |HeaderText(m.header)|, m.bytes);
  }

  lemma AckReadsBack(b: Str, cursor: nat, m: SyncAck)
    requires At(b, cursor, AckText(m)) && |b| < TWO_64
    ensures ParseAck(b, cursor) == Got(m, cursor + |AckText(m)|)
  {
    hide ParseString, StringText, ParseBool, BoolText, At;
    var w, x, y, z := StringText(m.fileId), StringText(m.relativePath), BoolText(m.success), StringText(m.detail);
    AtSplit(b, cursor, w + x + y, z);
    AtSplit(b, cursor, w + x, y);
    AtSplit(b, cursor, w, x);
    StringAt(b, cursor, m.fileId);
    StringAt(b, cursor + |w|, m.relativePath);
    BoolAt(b, cursor + |w| + |x|, m.success);
    StringAt(b, cursor + |w| + |x| + |y|, m.detail);
  }

  // ---------- The encoders as the code runs them ----------

  method EncodeHello(m: Hello) returns (frame: Frame)
    ensures frame == Frame(HELLO, HelloText(m))
  {
    hide NumberText, StringText;
    var payload := AppendString([], m.nodeId);
    payload := AppendString(payload, m.deviceName);
    payload := AppendString(payload, m.version);
    frame := Frame(HELLO, payload);
  }

  lemma ChunksTextNext(buffer: Str, chunks: seq<ChunkEntry>, i: nat)
    requires i < |chunks|
    ensures buffer + ChunksText(chunks[..i + 1]) == (buffer + ChunksText(chunks[..i])) + ChunkText(chunks[i])
  {
    hide ChunkText;
    assert chunks[..i + 1][..i] == chunks[..i];
  }

  lemma FilesTextNext(buffer: Str, files: seq<ManifestFile>, i: nat)
    requires i < |files|
    ensures buffer + FilesText(files[..i + 1]) == (buffer + FilesText(files[..i])) + FileText(files[i])
  {
    hide FileText;
    assert files[..i + 1][..i] == files[..i];
  }

  method AppendChunk(buffer: Str, c: ChunkEntry) returns (payload: Str)
    ensures payload == buffer + ChunkText(c)
  {
    hide NumberText, StringText;
    payload := AppendU64(buffer, c.index);
    payload := AppendU64(payload, c.offset);
    payload := AppendU64(payload, c.size);
    payload := AppendString(payload, c.hash);
    assert payload == buffer + ChunkText(c);
  }

  /** The loop over chunk entries, which the manifest and the request share. */
  method AppendChunks(buffer: Str, chunks: seq<ChunkEntry>) returns (payload: Str)
    ensures payload == buffer + ChunksText(chunks)
  {
    payload := buffer;
    for i := 0 to |chunks|
      invariant payload == buffer + ChunksText(chunks[..i])
    {
      hide ChunkText, ChunksText;
      ChunksTextNext(buffer, chunks, i);
      payload := AppendChunk(payload, chunks[i]);
    }
    assert chunks[..|chunks|] == chunks;
  }

  method AppendFile(buffer: Str, f: ManifestFile) returns (payload: Str)
    ensures payload == buffer + FileText(f)
  {
    hide NumberText, StringText, ChunksText;
    payload := AppendString(buffer, f.summary.fileId);
    payload := AppendString(payload, f.summary.relativePath);
    payload := AppendString(payload, f.summary.rootHash);
    payload := AppendU64(payload, f.summary.size);
    payload := AppendU64(payload, f.summary.mtime);
    assert payload == buffer + SummaryText(f.summary);
    payload := AppendU64(payload, |f.chunks|);
    hide SummaryText;
    payload := AppendChunks(payload, f.chunks);
  }

  method EncodeManifestSummary(manifest: seq<ManifestFile>) returns (frame: Frame)
    ensures frame == Frame(MANIFEST_SUMMARY, ManifestText(manifest))
  {
    hide NumberText, FileText;
    var payload := AppendU64([], |manifest|);
    for i := 0 to |manifest|
      invariant payload == NumberText(|manifest|) + FilesText(manifest[..i])
    {
      hide FilesText;
      FilesTextNext(NumberText(|manifest|), manifest, i);
      payload := AppendFile(payload, manifest[i]);
    }
    assert manifest[..|manifest|] == manifest;
    frame := Frame(MANIFEST_SUMMARY, payload);
  }

  method EncodeMissingChunksRequest(m: ChunksRequest) returns (frame: Frame)
    ensures frame == Frame(MISSING_CHUNKS_REQUEST, RequestText(m))
  {
    hide NumberText, StringText;
    var payload := AppendString([], m.fileId);
    payload := AppendString(payload, m.relativePath);
    payload := AppendString(payload, m.expectedRootHash);
    payload := AppendU64(payload, |m.missing|);
    payload := AppendChunks(payload, m.missing);
    frame := Frame(MISSING_CHUNKS_REQUEST, payload);
  }

  method EncodeChunkHeader(h: ChunkHeader) returns (frame: Frame)
    ensures frame == Frame(CHUNK_DATA, HeaderText(h))
  {
    hide NumberText, StringText;
    var payload := AppendString([], h.fileId);
    payload := AppendString(payload, h.hash);
    payload := AppendU64(payload, h.index);
    payload := AppendU64(payload, h.offset);
    payload := AppendU64(payload, h.payloadSize);
    frame := Frame(CHUNK_DATA, payload);
  }

  method EncodeChunkData(m: ChunkData) returns (frame: Frame)
    ensures frame == Frame(CHUNK_DATA, DataText(m))
  {
    frame := EncodeChunkHeader(m.header);
    var payload := AppendString(frame.payload, m.bytes);
    frame := frame.(payload := payload);
  }

  method EncodeSyncAck(m: SyncAck) returns (frame: Frame)
    ensures frame == Frame(SYNC_ACK, AckText(m))
  {
    hide NumberText, StringText;
    var payload := AppendString([], m.fileId);
    payload := AppendString(payload, m.relativePath);
    payload := AppendBool(payload, m.success);
    payload := AppendString(payload, m.detail);
    frame := Frame(SYNC_ACK, payload);
  }

  method EncodeError(detail: Str) returns (frame: Frame)
    ensures frame == Frame(ERROR, StringText(detail))
  {
    var payload := AppendString([], detail);
    frame := Frame(ERROR, payload);
  }

  // ---------- The decoders as the code runs them ----------

  method DecodeHello(frame: Frame) returns (r: Result<Hello>)
    ensures r == Decoded(frame, HELLO, ParseHello(frame.payload, 0))
  {
    if frame.messageType != HELLO {
      return Err;
    }
    var cursor := 0;
    var nodeId, deviceName, version;
    nodeId, cursor :- ConsumeString(frame.payload, cursor);
    deviceName, cursor :- ConsumeString(frame.payload, cursor);
    version, cursor :- ConsumeString(frame.payload, cursor);
    r := Ok(Hello(nodeId, deviceName, version));
  }

  lemma {:induction false} ChunksStayBad(b: Str, cursor: nat, k: nat, n: nat)
    requires k <= n && ParseChunks(b, cursor, k).Bad?
    ensures ParseChunks(b, cursor, n).Bad?
  {
    hide ParseChunk;
    if k < n {
      ChunksStayBad(b, cursor, k, n - 1);
    }
  }

  lemma {:induction false} FilesStayBad(b: Str, cursor: nat, k: nat, n: nat)
    requires k <= n && ParseFiles(b, cursor, k).Bad?
    ensures ParseFiles(b, cursor, n).Bad?
  {
    hide ParseFile;
    if k < n {
      FilesStayBad(b, cursor, k, n - 1);
    }
  }

  method ConsumeChunk(b: Str, from: nat) returns (r: Result<ChunkEntry>, cursor: nat)
    ensures Returns(r, cursor, ParseChunk(b, from))
  {
    cursor := from;
    var index, offset, size, hash;
    index, cursor :- ConsumeU64(b, cursor);
    offset, cursor :- ConsumeU64(b, cursor);
    size, cursor :- ConsumeU64(b, cursor);
    hash, cursor :- ConsumeString(b, cursor);
    r := Ok(ChunkEntry(index % TWO_32, offset, size, hash));
  }

  /** The loop over n chunk entries. */
  method ConsumeChunks(b: Str, from: nat, n: nat) returns (r: Result<seq<ChunkEntry>>, cursor: nat)
    ensures Returns(r, cursor, ParseChunks(b, from, n))
  {
    cursor := from;
    var chunks := [];
    for i := 0 to n
      invariant ParseChunks(b, from, i) == Got(chunks, cursor)
    {
      hide ParseChunk;
      var chunk, next := ConsumeChunk(b, cursor);
      if chunk.Err? {
        ChunksStayBad(b, from, i + 1, n);
        return Err, next;
      }
      chunks, cursor := chunks + [chunk.value], next;
    }
    r := Ok(chunks);
  }

  method ConsumeFile(b: Str, from: nat) returns (r: Result<ManifestFile>, cursor: nat)
    ensures Returns(r, cursor, ParseFile(b, from))
  {
    cursor := from;
    var fileId, relativePath, rootHash, size, mtime, count, chunks;
    fileId, cursor :- ConsumeString(b, cursor);
    relativePath, cursor :- ConsumeString(b, cursor);
    rootHash, cursor :- ConsumeString(b, cursor);
    size, cursor :- ConsumeU64(b, cursor);
    mtime, cursor :- ConsumeU64(b, cursor);
    count, cursor :- ConsumeU64(b, cursor);
    chunks, cursor :- ConsumeChunks(b, cursor, count % TWO_32);
    r := Ok(ManifestFile(ManifestEntry(fileId, relativePath, rootHash, size, mtime, count % TWO_32), chunks));
  }

  method DecodeManifestSummary(frame: Frame) returns (r: Result<seq<ManifestFile>>)
    ensures r == Decoded(frame, MANIFEST_SUMMARY, ParseManifest(frame.payload, 0))
  {
    if frame.messageType != MANIFEST_SUMMARY {
      return Err;
    }
    var b, cursor := frame.payload, 0;
    var count;
    count, cursor :- ConsumeU64(b, cursor);
    var manifest := [];
    ghost var from := cursor;
    for i := 0 to count
      invariant ParseFiles(b, from, i) == Got(manifest, cursor)
    {
      hide ParseFile;
      var file, next := ConsumeFile(b, cursor);
      if file.Err? {
        FilesStayBad(b, from, i + 1, count);
        return Err;
      }
      manifest, cursor := manifest + [file.value], next;
    }
    r := Ok(manifest);
  }

  method DecodeMissingChunksRequest(frame: Frame) returns (r: Result<ChunksRequest>)
    ensures r == Decoded(frame, MISSING_CHUNKS_REQUEST, ParseRequest(frame.payload, 0))
  {
    if frame.messageType != MISSING_CHUNKS_REQUEST {
      return Err;
    }
    var b, cursor := frame.payload, 0;
    var fileId, relativePath, rootHash, count, missing;
    fileId, cursor :- ConsumeString(b, cursor);
    relativePath, cursor :- ConsumeString(b, cursor);
    rootHash, cursor :- ConsumeString(b, cursor);
    count, cursor :- ConsumeU64(b, cursor);
    missing, cursor :- ConsumeChunks(b, cursor, count);
    r := Ok(ChunksRequest(fileId, relativePath, rootHash, missing));
  }

  method ConsumeHeader(b: Str, from: nat) returns (r: Result<ChunkHeader>, cursor: nat)
    ensures Returns(r, cursor, ParseHeader(b, from))
  {
    cursor := from;
    var fileId, hash, index, offset, payloadSize;
    fileId, cursor :- ConsumeString(b, cursor);
    hash, cursor :- ConsumeString(b, cursor);
    index, cursor :- ConsumeU64(b, cursor);
    offset, cursor :- ConsumeU64(b, cursor);
    payloadSize, cursor :- ConsumeU64(b, cursor);
    r := Ok(ChunkHeader(fileId, hash, index % TWO_32, offset, payloadSize));
  }

  method DecodeChunkHeader(frame: Frame) returns (r: Result<ChunkHeader>)
    ensures r == Decoded(frame, CHUNK_DATA, ParseHeader(frame.payload, 0))
  {
    if frame.messageType != CHUNK_DATA {
      return Err;
    }
    var cursor;
    r, cursor := ConsumeHeader(frame.payload, 0);
  }

  method DecodeChunkData(frame: Frame) returns (r: Result<ChunkData>)
    ensures r == Decoded(frame, CHUNK_DATA, ParseData(frame.payload, 0))
  {
    if frame.messageType != CHUNK_DATA {
      return Err;
    }
    var cursor := 0;
    var header, bytes;
    header, cursor :- ConsumeHeader(frame.payload, cursor);
    bytes, cursor :- ConsumeString(frame.payload, cursor);
    if |bytes| != header.payloadSize {
      return Err;
    }
    r := Ok(ChunkData(header, bytes));
  }

  method DecodeSyncAck(frame: Frame) returns (r: Result<SyncAck>)
    ensures r == Decoded(frame, SYNC_ACK, ParseAck(frame.payload, 0))
  {
    if frame.messageType != SYNC_ACK {
      return Err;
    }
    var b, cursor := frame.payload, 0;
    var fileId, relativePath, success, detail;
    fileId, cursor :- ConsumeString(b, cursor);
    relativePath, cursor :- ConsumeString(b, cursor);
    success, cursor :- ConsumeBool(b, cursor);
    detail, cursor :- ConsumeString(b, cursor);
    r := Ok(SyncAck(fileId, relativePath, success, detail));
  }

  method DecodeError(frame: Frame) returns (r: Result<Str>)
    ensures r == Decoded(frame, ERROR, ParseString(frame.payload, 0))
  {
    if frame.messageType != ERROR {
      return Err;
    }
    var cursor;
    r, cursor := ConsumeString(frame.payload, 0);
  }
}
