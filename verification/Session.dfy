/** The session of RunServer and RunClient over one duplex link: hello, manifest, one round a file, acknowledgement. */
module Session {
  import opened Base
  import opened Decimal
  import opened Wire
  import opened Chunks
  import opened Attempt
  import opened Diff
  import opened Codec
  import opened Messages
  import opened Framing
  import opened Transport
  import opened Convergence
  import opened Server
  import opened Hasher
  import opened ClientRun
  import opened SyncWriter
  import Chunker
  import ChunkReader
  import I = FileIndex
  import SyncClient

  /** The message is within the field widths, and its text within memory. */
  predicate Transmittable(m: Message) { Encodable(m) && |FrameOf(m).payload| < TWO_64 }

  /** Everything one round sends is transmittable. */
  ghost predicate RoundFits(s: State, request: ChunksRequest) {
    && Transmittable(Ask(request))
    && (forall m | m in Serve(MD5HEX, s, request).out :: Transmittable(m))
    && (forall c | c in request.missing :: Hashable(c.size))
  }

  lemma DecodesBack(m: Message)
    requires Transmittable(m)
    ensures ParseFrame(FrameOf(m)) == Got(Arrived(m), |FrameOf(m).payload|)
  {
    hide ParseFrame, FrameOf, Encodable, Arrived;
    ReadsBackWithResidue(m, []);
    assert FrameOf(m).payload + [] == FrameOf(m).payload;
  }

  lemma RequestDecodes(request: ChunksRequest)
    requires Transmittable(Ask(request))
    ensures ParseRequest(RequestText(request), 0) == Got(request, |RequestText(request)|)
  {
    hide ParseRequest, Encodable, RequestText;
    DecodesBack(Ask(request));
  }

  lemma DataDecodes(data: ChunkData)
    requires Transmittable(Deliver(data))
    ensures ParseData(DataText(data), 0) == Got(data, |DataText(data)|)
  {
    hide ParseData, Encodable, DataText;
    DecodesBack(Deliver(data));
  }

  lemma FramesSnoc(messages: seq<Message>, m: Message)
    ensures FramesOf(messages + [m]) == FramesOf(messages) + [FrameOf(m)]
  {
    hide FrameOf;
  }

  // ---------- The server's side ----------

  method FindFile(manifest: seq<ManifestFile>, fileId: Str, path: Path) returns (r: Option<ManifestFile>)
    ensures r == FindRemoteFile(manifest, fileId, path)
  {
    var i := 0;
    while i < |manifest|
      invariant i <= |manifest|
      invariant FindRemoteFile(manifest, fileId, path) == FindRemoteFile(manifest[i..], fileId, path)
    {
      if manifest[i].summary.fileId == fileId && manifest[i].summary.relativePath == path {
        return Some(manifest[i]);
      }
      i := i + 1;
    }
    r := None;
  }

  method SourcePaths(records: seq<FileRecord>) returns (paths: map<Str, Path>)
    ensures forall id :: SourceOf(records, id) == if id in paths then Some(paths[id]) else None
  {
    paths := map[];
    for i := 0 to |records|
      invariant forall id :: SourceOf(records[..i], id) == if id in paths then Some(paths[id]) else None
    {
      assert records[..i + 1][..i] == records[..i];
      paths := paths[records[i].fileId := records[i].absolutePath];
    }
    assert records[..|records|] == records;
  }

  lemma {:induction false} ThrownStays(
    h: Hash, files: map<Path, Bytes>, path: Path, fileId: Str, chunks: seq<ChunkEntry>, k: nat)
    requires k <= |chunks| && ServeChunks(h, files, path, fileId, chunks[..k]).thrown
    ensures ServeChunks(h, files, path, fileId, chunks) == ServeChunks(h, files, path, fileId, chunks[..k])
  {
    if k < |chunks| {
      assert chunks[..|chunks| - 1][..k] == chunks[..k];
      ThrownStays(h, files, path, fileId, chunks[..|chunks| - 1], k);
    } else {
      assert chunks[..k] == chunks;
    }
  }

  lemma ServedNext(h: Hash, files: map<Path, Bytes>, path: Path, fileId: Str, chunks: seq<ChunkEntry>, i: nat)
    requires i < |chunks| && !ServeChunks(h, files, path, fileId, chunks[..i]).thrown
    ensures var before := ServeChunks(h, files, path, fileId, chunks[..i]);
            var after := ServeChunks(h, files, path, fileId, chunks[..i + 1]);
            var bytes := ReadAndVerify(h, files, path, chunks[i]);
            if bytes.None? then after.thrown && after.out == before.out
            else
              && !after.thrown
              && FramesOf(after.out) == FramesOf(before.out) + [FrameOf(DataFor(fileId, chunks[i], bytes.value))]
  {
    hide ReadAndVerify, FrameOf, FramesOf;
    assert chunks[..i + 1][..i] == chunks[..i];
    var bytes := ReadAndVerify(h, files, path, chunks[i]);
    if bytes.Some? {
      FramesSnoc(ServeChunks(h, files, path, fileId, chunks[..i]).out, DataFor(fileId, chunks[i], bytes.value));
    }
  }

  /** The loop over the chunks of a request; thrown when a chunk cannot be read as asked. */
  method SendChunks(s: State, path: Path, endpoint: InMemoryEndpoint, request: ChunksRequest) returns (thrown: bool)
    requires endpoint.outbox != null && endpoint.outbox.Valid()
    requires forall c | c in request.missing :: Hashable(c.size)
    modifies endpoint.outbox
    ensures endpoint.outbox.Valid()
    ensures var served := ServeChunks(MD5HEX, s.files, path, request.fileId, request.missing);
            thrown == served.thrown && endpoint.outbox.frames == old(endpoint.outbox.frames) + FramesOf(served.out)
  {
    hide ReadAndVerify, DataText, Queue.Valid, ServeChunks, FramesOf;
    var chunks := request.missing;
    assert chunks[..0] == [];
    NothingServed(MD5HEX, s.files, path, request.fileId);
    for i := 0 to |chunks|
      invariant endpoint.outbox.Valid()
      invariant !ServeChunks(MD5HEX, s.files, path, request.fileId, chunks[..i]).thrown
      invariant endpoint.outbox.frames == old(endpoint.outbox.frames)
                  + FramesOf(ServeChunks(MD5HEX, s.files, path, request.fileId, chunks[..i]).out)
    {
      var c := chunks[i];
      ServedNext(MD5HEX, s.files, path, request.fileId, chunks, i);
      var bytes := ChunkReader.ReadFile(s.files, path, c);
      if bytes.None? {
        ThrownStays(MD5HEX, s.files, path, request.fileId, chunks, i + 1);
        return true;
      }
      var header := ChunkHeader(request.fileId, c.hash, c.index, c.offset, |bytes.value|);
      var frame := EncodeChunkData(ChunkData(header, bytes.value));
      var sent := endpoint.Send(frame);
    }
    assert chunks[..|chunks|] == chunks;
    thrown := false;
  }

  lemma NothingServed(h: Hash, files: map<Path, Bytes>, path: Path, fileId: Str)
    ensures ServeChunks(h, files, path, fileId, []) == Served([], false) && FramesOf([]) == []
  {
  }

  method ServeRequest(s: State, endpoint: InMemoryEndpoint, request: ChunksRequest) returns (thrown: bool)
    requires endpoint.outbox != null && endpoint.outbox.Valid()
    requires forall c | c in request.missing :: Hashable(c.size)
    modifies endpoint.outbox
    ensures endpoint.outbox.Valid()
    ensures var served := Serve(MD5HEX, s, request);
            thrown == served.thrown && endpoint.outbox.frames == old(endpoint.outbox.frames) + FramesOf(served.out)
  {
    hide Queue.Valid, FindRemoteFile, SourceOf, ServeChunks, MD5HEX;
    var manifest := BuildManifest(s.records);
    assert manifest == ManifestFiles(s.records);
    var sources := SourcePaths(s.records);
    var remote := FindFile(manifest, request.fileId, request.relativePath);
    if remote.None? {
      var frame := EncodeError(UNKNOWN_FILE);
      assert FramesOf([Complain(UNKNOWN_FILE)]) == [frame];
      var sent := endpoint.Send(frame);
      return false;
    }
    if request.fileId !in sources {
      var frame := EncodeError(MISSING_SOURCE);
      assert FramesOf([Complain(MISSING_SOURCE)]) == [frame];
      var sent := endpoint.Send(frame);
      return false;
    }
    thrown := SendChunks(s, sources[request.fileId], endpoint, request);
  }

  datatype Status = Serving | Acknowledged | Closed | Threw

  /** What one turn of the server's loop does with a frame. */
  function TurnOf(h: Hash, s: State, frame: Frame): (Status, seq<Message>) {
    if frame.messageType == MISSING_CHUNKS_REQUEST then
      var request := ParseRequest(frame.payload, 0);
      if request.Bad? then (Threw, [])
      else
        var served := Serve(h, s, request.value);
        (if served.thrown then Threw else Serving, served.out)
    else if frame.messageType == SYNC_ACK then
      (if ParseAck(frame.payload, 0).Bad? then Threw else Acknowledged, [])
    else (Serving, [])
  }

  /** Frames that are neither requests nor acknowledgements change nothing; an unreadable one of those ends the server. */
  lemma OtherFramesIgnored(h: Hash, s: State, frame: Frame)
    ensures frame.messageType != 2 && frame.messageType != 4 ==> TurnOf(h, s, frame) == (Serving, [])
    ensures frame.messageType == 4 ==>
              TurnOf(h, s, frame) == (if ParseAck(frame.payload, 0).Got? then Acknowledged else Threw, [])
    ensures frame.messageType == 2 && ParseRequest(frame.payload, 0).Bad? ==> TurnOf(h, s, frame) == (Threw, [])
  {
    hide Serve, ParseAck, ParseRequest;
  }

  ghost predicate ChunksHashable(frame: Frame) {
    var request := ParseRequest(frame.payload, 0);
    frame.messageType == MISSING_CHUNKS_REQUEST && request.Got? ==>
      forall c | c in request.value.missing :: Hashable(c.size)
  }

  /** One turn of the server's loop, and the acknowledgement it took, if it took one. */
  method ServerTurn(s: State, endpoint: InMemoryEndpoint) returns (status: Status, ack: Option<SyncAck>)
    requires endpoint.inbox != null && endpoint.outbox != null && endpoint.inbox != endpoint.outbox
    requires endpoint.inbox.Valid() && endpoint.outbox.Valid()
    requires forall f | f in endpoint.inbox.frames :: ChunksHashable(f)
    modifies endpoint.inbox, endpoint.outbox
    ensures endpoint.inbox.Valid() && endpoint.outbox.Valid() && endpoint.inbox.pushed == old(endpoint.inbox.pushed)
    ensures ack.Some? <==> status == Acknowledged
    ensures ack.Some? ==>
              && old(endpoint.inbox.frames) != [] && old(endpoint.inbox.frames)[0].messageType == SYNC_ACK
              && ParseAck(old(endpoint.inbox.frames)[0].payload, 0).Got?
              && ParseAck(old(endpoint.inbox.frames)[0].payload, 0).value == ack.value
    ensures old(endpoint.inbox.frames) == [] ==>
              && status == Closed && endpoint.inbox.frames == [] && endpoint.outbox.frames == old(endpoint.outbox.frames)
    ensures old(endpoint.inbox.frames) != [] ==>
              && var turn := TurnOf(MD5HEX, s, old(endpoint.inbox.frames)[0]);
              && status == turn.0 && endpoint.inbox.frames == old(endpoint.inbox.frames)[1..]
              && endpoint.outbox.frames == old(endpoint.outbox.frames) + FramesOf(turn.1)
  {
    hide Serve, ParseRequest, ParseAck, MD5HEX;
    ack := None;
    var received, frame := endpoint.Receive();
    if !received {
      return Closed, ack;
    }
    assert frame == old(endpoint.inbox.frames)[0] && frame in old(endpoint.inbox.frames);
    assert FramesOf([]) == [];
    status := Serving;
    if frame.messageType == MISSING_CHUNKS_REQUEST {
      var request := DecodeMissingChunksRequest(frame);
      if request.Err? {
        return Threw, ack;
      }
      var thrown := ServeRequest(s, endpoint, request.value);
      if thrown {
        status := Threw;
      }
    } else if frame.messageType == SYNC_ACK {
      var decoded := DecodeSyncAck(frame);
      status, ack := if decoded.Err? then Threw else Acknowledged, if decoded.Err? then None else Some(decoded.value);
    }
  }

  // ---------- Both sides ----------

  ghost predicate Linked(client: InMemoryEndpoint, server: InMemoryEndpoint) {
    && client.inbox != null && client.outbox != null && client.inbox != client.outbox
    && server.inbox == client.outbox && server.outbox == client.inbox
  }

  /** Nothing is under way in either direction. */
  ghost predicate Idle(client: InMemoryEndpoint, server: InMemoryEndpoint)
    requires Linked(client, server)
    reads client.inbox, client.outbox
  {
    client.inbox.Valid() && client.outbox.Valid() && client.inbox.frames == [] && client.outbox.frames == []
  }

  /** What a round can send: chunk frames, at most one each asked for, or a single error frame. */
  predicate RoundOutput(out: seq<Message>, count: nat) {
    |out| <= count && ((forall m | m in out :: m.Deliver?) || (|out| == 1 && out[0].Complain?))
  }

  /** Every chunk asked for is sent. */
  predicate Complete(out: seq<Message>, count: nat) {
    |out| == count && forall m | m in out :: m.Deliver?
  }

  lemma ServesARound(h: Hash, s: State, request: ChunksRequest)
    requires request.missing != []
    ensures RoundOutput(Serve(h, s, request).out, |request.missing|)
  {
  }

  lemma DeliveredFrame(m: Message)
    requires Transmittable(m) && (m.Deliver? || m.Complain?)
    ensures FrameOf(m).messageType == if m.Deliver? then CHUNK_DATA else ERROR
    ensures m.Deliver? ==> Decoded(FrameOf(m), CHUNK_DATA, ParseData(FrameOf(m).payload, 0)) == Ok(m.data)
  {
    hide ParseData, Transmittable, DataText;
    if m.Deliver? {
      DataDecodes(m.data);
    }
  }

  /** The client's receive loop of one round. */
  method ReceiveRound(client: InMemoryEndpoint, count: nat, ghost out: seq<Message>) returns (r: Result<seq<ChunkData>>)
    requires client.inbox != null && client.inbox.Valid() && client.inbox.frames == FramesOf(out)
    requires RoundOutput(out, count) && forall m | m in out :: Transmittable(m)
    modifies client.inbox
    ensures client.inbox.Valid() && client.inbox.frames == []
    ensures r.Ok? <==> Complete(out, count)
    ensures r.Ok? ==> |r.value| == count && forall i | 0 <= i < count :: out[i] == Deliver(r.value[i])
  {
    hide Queue.Valid, FrameOf, FramesOf, ParseData, Transmittable;
    ghost var frames := FramesOf(out);
    var chunks := [];
    for i := 0 to count
      invariant i == |chunks| <= |out|
      invariant client.inbox.Valid() && client.inbox.frames == frames[i..]
      invariant forall j | 0 <= j < i :: out[j] == Deliver(chunks[j])
    {
      var received, frame := client.Receive();
      if !received {
        return Err;
      }
      ghost var m := out[i];
      assert m in out && frame == frames[i] == FrameOf(m);
      DeliveredFrame(m);
      if frame.messageType == ERROR {
        var detail := DecodeError(frame);
        return Err;
      }
      var data := DecodeChunkData(frame);
      if data.Err? {
        return Err;
      }
      chunks := chunks + [data.value];
    }
    r := Ok(chunks);
  }

  /**
   One file's round. Whether it succeeds or not, nothing is left in either direction; it succeeds exactly when the
   server has every chunk, and then brings one frame for each chunk asked for, in order.
   */
  method FileRound(client: InMemoryEndpoint, server: InMemoryEndpoint, s: State, request: ChunksRequest)
    returns (r: Result<seq<ChunkData>>)
    requires Linked(client, server) && Idle(client, server)
    requires request.missing != [] && RoundFits(s, request)
    modifies client.inbox, client.outbox
    ensures Idle(client, server) && client.outbox.pushed == old(client.outbox.pushed) + [FrameOf(Ask(request))]
    ensures var out := Serve(MD5HEX, s, request).out;
            && (r.Ok? <==> Complete(out, |request.missing|))
            && (r.Ok? ==> |r.value| == |out| && forall i | 0 <= i < |out| :: out[i] == Deliver(r.value[i]))
  {
    hide Serve, ParseRequest, RequestText, Queue.Valid;
    var frame := EncodeMissingChunksRequest(request);
    var sent := client.Send(frame);
    RequestDecodes(request);
    var status, ack := ServerTurn(s, server);
    ServesARound(MD5HEX, s, request);
    r := ReceiveRound(client, |request.missing|, Serve(MD5HEX, s, request).out);
  }

  // ---------- One file ----------

  /** What the client still asks of a file when this prefix is marked. */
  function Trimmed(request: ChunksRequest, prefix: nat): ChunksRequest {
    request.(missing := Trim(request.missing, prefix))
  }

  /** What the client makes of the frames of a round. */
  function RepliesOf(received: seq<ChunkData>): (r: seq<Reply>)
    ensures |r| == |received|
  {
    seq(|received|, i requires 0 <= i < |received| => Data(received[i].header.index, received[i].bytes))
  }

  lemma {:induction false} CollectsIff(replies: seq<Reply>, n: nat)
    ensures Collect(replies, n).Some? <==> n <= |replies| && forall i | 0 <= i < n :: replies[i].Data?
  {
    if n > 0 {
      CollectsIff(replies, n - 1);
    }
  }

  /** A round brings every chunk exactly if the client can collect them all. */
  lemma RoundCollects(out: seq<Message>, n: nat)
    requires RoundOutput(out, n)
    ensures Collect(Replies(out), n).Some? <==> Complete(out, n)
  {
    CollectsIff(Replies(out), n);
    assert forall i | 0 <= i < |out| :: Replies(out)[i].Data? <==> out[i].Deliver?;
  }

  /** What is sent has the size that was asked for. */
  lemma {:induction false} SentAsAsked(
    h: Hash, files: map<Path, Bytes>, path: Path, fileId: Str, chunks: seq<ChunkEntry>, m: Message)
    requires m in ServeChunks(h, files, path, fileId, chunks).out
    ensures m.Deliver? && exists c :: c in chunks && c.size == |m.data.bytes|
  {
    hide ReadAndVerify;
    if chunks != [] {
      var front, c := chunks[..|chunks| - 1], chunks[|chunks| - 1];
      assert chunks == front + [c];
      if m in ServeChunks(h, files, path, fileId, front).out {
        SentAsAsked(h, files, path, fileId, front, m);
      } else {
        assert c in chunks && c.size == |m.data.bytes|;
      }
    }
  }

  lemma DeliveredHashable(s: State, request: ChunksRequest, m: Message)
    requires m in Serve(MD5HEX, s, request).out && m.Deliver? && forall c | c in request.missing :: Hashable(c.size)
    ensures Hashable(|m.data.bytes|)
  {
    hide ServeChunks, Hashable;
    SentAsAsked(MD5HEX, s.files, SourceOf(s.records, request.fileId).value, request.fileId, request.missing, m);
  }

  /** The root hash in a request is not looked at. */
  lemma ServesForFile(h: Hash, s: State, f: ManifestEntry, q: ChunksRequest)
    requires q.fileId == f.fileId && q.relativePath == f.relativePath
    ensures ServeFile(h, s, f)(q.missing) == Replies(Serve(h, s, q).out)
  {
  }

  /** The frame of a request, if it asks for anything. */
  function AskFrames(request: ChunksRequest): seq<Frame> {
    if request.missing == [] then [] else [FrameOf(Ask(request))]
  }

  /** Asks for what is missing of one file, if anything, and takes what arrives. */
  method FetchChunks(client: InMemoryEndpoint, server: InMemoryEndpoint, s: State, request: ChunksRequest)
    returns (replies: seq<Reply>, received: Option<map<nat, Bytes>>)
    requires Linked(client, server) && Idle(client, server)
    requires RoundFits(s, request)
    modifies client.inbox, client.outbox
    ensures Idle(client, server) && client.outbox.pushed == old(client.outbox.pushed) + AskFrames(request)
    ensures received == Collect(if request.missing == [] then [] else Replies(Serve(MD5HEX, s, request).out),
                                |request.missing|)
    ensures received.Some? ==> Collect(replies, |request.missing|) == received
    ensures forall r | r in replies && r.Data? :: Hashable(|r.bytes|)
  {
    hide Serve, Transmittable, Hashable;
    replies := [];
    if request.missing != [] {
      ghost var out := Serve(MD5HEX, s, request).out;
      var round := FileRound(client, server, s, request);
      ServesARound(MD5HEX, s, request);
      RoundCollects(out, |request.missing|);
      if round.Err? {
        return [], None;
      }
      replies := RepliesOf(round.value);
      assert replies == Replies(out);
      forall r | r in replies
        ensures Hashable(|r.bytes|)
      {
        var i :| 0 <= i < |replies| && replies[i] == r;
        assert out[i] in out;
        DeliveredHashable(s, request, out[i]);
      }
    }
    received := SyncClient.ReceiveChunks(replies, |request.missing|);
  }

  /** Everything that the round of a request can send is transmittable, whatever is marked. */
  ghost predicate FileFits(env: Environment, q: ChunksRequest) {
    && Hashable(env.chunkSize) && env.chunkSize > 0
    && (forall p :: RoundFits(env.server, Trimmed(q, p)))
    && (forall r, c | r in env.server.records && c in r.chunks :: Hashable(c.size))
  }

  /** The job before its request went out: no local record, no frames. */
  ghost predicate Unanswered(job: Job, spec: Job) {
    job == spec.(local := None, serve := AnswerWith([]))
  }

  /** What the client asks, and what it gets, are those of the attempt against this server. */
  lemma AsksAsSpecified(env: Environment, c: ClientState, f: ManifestFile, q: ChunksRequest, job: Job)
    requires f.summary.fileId == q.fileId && f.summary.relativePath == q.relativePath
    requires Unanswered(job, JobOf(MD5HEX, env, c.index, f, q))
    ensures var s1, spec := Start(c.disk, job), JobOf(MD5HEX, env, c.index, f, q);
            var trimmed := q.(missing := Request(s1, job));
            && s1 == Start(c.disk, spec) && MarkedPrefix(s1, job) == MarkedPrefix(s1, spec)
            && Request(s1, job) == Request(s1, spec) && trimmed == Trimmed(q, MarkedPrefix(s1, job))
            && Received(s1, spec)
               == Collect(if trimmed.missing == [] then [] else Replies(Serve(MD5HEX, env.server, trimmed).out),
                          |trimmed.missing|)
  {
    hide Serve, ResumePrefix, Trim, MarksOf, LocalAt, Collect;
    var s1 := Start(c.disk, job);
    ServesForFile(MD5HEX, env.server, f.summary, q.(missing := Request(s1, job)));
  }

  /** A frame list that collects to the same chunks leads to the same states. */
  lemma AnsweredAlike(s: Disk, spec: Job, replies: seq<Reply>)
    requires Received(s, spec).Some? && Collect(replies, |Request(s, spec)|) == Received(s, spec)
    ensures var job := spec.(serve := AnswerWith(replies));
            && MarkedPrefix(s, job) == MarkedPrefix(s, spec) && Request(s, job) == Request(s, spec)
            && Received(s, job) == Received(s, spec) && Rebuilding(MD5HEX, s, job) == Rebuilding(MD5HEX, s, spec)
  {
    hide Rebuilding, Collect, Trim, ResumePrefix;
    var job := spec.(serve := AnswerWith(replies));
    assert Request(s, job) == Request(s, spec);
    SameRebuilding(MD5HEX, s, job, spec);
  }

  /** BuildFileRecord of the committed file, and its transaction. */
  method StoreRecord(env: Environment, disk: ClientDisk, db: I.Database, q: ChunksRequest) returns (stored: bool)
    requires Hashable(env.chunkSize) && env.chunkSize > 0 && PathOf(env.root, q.relativePath) in disk.files
    requires I.Valid(db.t) && I.Narrow(db.t)
    modifies db
    ensures I.Valid(db.t) && I.Narrow(db.t)
    ensures var r := I.Upsert(old(db.t), Refreshed(MD5HEX, env, q, disk.files[PathOf(env.root, q.relativePath)]));
            stored == r.Ok? && db.t == if r.Ok? then r.value else old(db.t)
  {
    hide Md5Hasher.Valid, Md5Hasher.Fed, Chunker.Chunker.Valid, I.Upsert, I.Valid, I.Narrow, Cut, Hashable;
    var path := PathOf(env.root, q.relativePath);
    var chunker := new Chunker.Chunker(env.chunkSize);
    var refreshed := chunker.BuildFileRecord(disk.files[path], path, q.relativePath, env.mtime(q));
    I.UpsertIsExact(db.t, refreshed);
    CutIsNarrow(MD5HEX, disk.files[path], env.chunkSize);
    if I.Upsert(db.t, refreshed).Ok? {
      I.UpsertKeepsNarrow(db.t, refreshed);
    }
    var r := db.UpsertFile(refreshed);
    stored := r.Ok?;
  }

  /** The rest of one file once its frames are in: local record, reconstruction, commit, index row. */
  method FinishFile(
    env: Environment, disk: ClientDisk, db: I.Database, q: ChunksRequest, job: Job, ghost spec: Job,
    prefix: nat, request: seq<ChunkEntry>, replies: seq<Reply>, received: map<nat, Bytes>) returns (going: bool)
    requires Unanswered(job, spec) && spec.local == LocalAt(db.t, spec.path)
    requires spec.path == PathOf(env.root, q.relativePath)
    requires prefix == MarkedPrefix(disk.Now(), spec) && request == Request(disk.Now(), spec)
    requires Received(disk.Now(), spec) == Some(received) == Collect(replies, |request|)
    requires SyncClient.Sendable(job.(serve := AnswerWith(replies)))
    requires Hashable(env.chunkSize) && env.chunkSize > 0 && I.Valid(db.t) && I.Narrow(db.t)
    modifies disk, db
    ensures I.Valid(db.t) && I.Narrow(db.t)
    ensures disk.history == old(disk.history) + Rebuilding(MD5HEX, old(disk.Now()), spec)
    ensures disk.Now() == Last(Rebuilding(MD5HEX, old(disk.Now()), spec))
    ensures if RowOf(disk.Now(), spec.id).state != Committed then !going && db.t == old(db.t)
            else
              && spec.path in disk.files
              && var r := I.Upsert(old(db.t), Refreshed(MD5HEX, env, q, disk.files[spec.path]));
                 going == (r.Ok? && !env.storeFails(q)) && db.t == if r.Ok? then r.value else old(db.t)
  {
    hide Md5Hasher.Valid, Md5Hasher.Fed, Request, MarkedPrefix, Received, Rebuilding, Collect, I.Fetches, I.Upsert,
      I.Valid, I.Narrow, LocalAt, Hashable, Refreshed;
    ghost var s1 := disk.Now();
    AnsweredAlike(s1, spec, replies);
    RebuildingEnds(MD5HEX, s1, spec);
    var local := db.GetFileByPath(job.path);
    FetchedIsLocal(db.t, spec.path, local);
    var answered := job.(serve := AnswerWith(replies), local := if local.None? then None else Some(local.value.chunks));
    assert answered == spec.(serve := AnswerWith(replies));
    var sync := new SyncClient.FileSync(disk, answered);
    var committed := sync.Rebuild(prefix, request, received);
    going := committed;
    if committed {
      going := StoreRecord(env, disk, db, q);
      if going && env.storeFails(q) {
        going := false;
      }
    }
  }

  lemma AnswersAreSendable(env: Environment, q: ChunksRequest, f: ManifestFile, job: Job, replies: seq<Reply>)
    requires FileFits(env, q) && f in ManifestFiles(env.server.records) && job.chunks == f.chunks
    requires forall r | r in replies && r.Data? :: Hashable(|r.bytes|)
    ensures SyncClient.Sendable(job.(serve := AnswerWith(replies)))
  {
    hide RoundFits, Hashable;
    var i :| 0 <= i < |env.server.records| && ManifestFiles(env.server.records)[i] == f;
    assert env.server.records[i] in env.server.records;
  }

  lemma UnknownFile(env: Environment, c: ClientState, q: ChunksRequest)
    requires FindRemoteFile(ManifestFiles(env.server.records), q.fileId, q.relativePath).None?
    ensures Step(MD5HEX, env, c, q) == Progress([], c, false)
  {
  }

  /** One turn of the loop, by what arrives and how the reconstruction ends. */
  lemma StepEnds(env: Environment, c: ClientState, f: ManifestFile, q: ChunksRequest)
    requires FindRemoteFile(ManifestFiles(env.server.records), q.fileId, q.relativePath) == Some(f)
    ensures var spec := JobOf(MD5HEX, env, c.index, f, q);
            var s1, p := Start(c.disk, spec), Step(MD5HEX, env, c, q);
            if Received(s1, spec).None? then p == Progress([s1], c.(disk := s1), false)
            else
              var t := Rebuilding(MD5HEX, s1, spec);
              var e := Last(t);
              if RowOf(e, spec.id).state != Committed then p == Progress([s1] + t, c.(disk := e), false)
              else
                && spec.path in e.files
                && var r := I.Upsert(c.index, Refreshed(MD5HEX, env, q, e.files[spec.path]));
                   p == Progress([s1] + t, ClientState(e, if r.Ok? then r.value else c.index), r.Ok? && !env.storeFails(q))
  {
    hide Rebuilding, Received, I.Upsert, Refreshed, LocalAt, Serve, ServeFile, Request, MarkedPrefix, Start, Collect;
    RowAfter(MD5HEX, c.disk, JobOf(MD5HEX, env, c.index, f, q));
  }

  /** What the client sends for a request: its chunks behind the marked prefix, if there are any. */
  ghost function FileAsk(env: Environment, c: ClientState, q: ChunksRequest): seq<Frame> {
    var f := FindRemoteFile(ManifestFiles(env.server.records), q.fileId, q.relativePath);
    if f.None? then []
    else
      var spec := JobOf(MD5HEX, env, c.index, f.value, q);
      AskFrames(q.(missing := Request(Start(c.disk, spec), spec)))
  }

  /**
   One file of RunClient's loop, over the link: request, frames, reconstruction, commit and index row. The disk passes
   through exactly the states of the attempt, and nothing is left under way, also when it ends in an exception.
   */
  method SyncFile(
    client: InMemoryEndpoint, server: InMemoryEndpoint, env: Environment, disk: ClientDisk, db: I.Database,
    manifest: seq<ManifestFile>, q: ChunksRequest) returns (going: bool)
    requires Linked(client, server) && Idle(client, server)
    requires manifest == ManifestFiles(env.server.records) && FileFits(env, q)
    requires I.Valid(db.t) && I.Narrow(db.t)
    modifies client.inbox, client.outbox, disk, db
    ensures Idle(client, server) && I.Valid(db.t) && I.Narrow(db.t)
    ensures client.outbox.pushed
         == old(client.outbox.pushed) + FileAsk(env, ClientState(old(disk.Now()), old(db.t)), q)
    ensures var p := Step(MD5HEX, env, ClientState(old(disk.Now()), old(db.t)), q);
            && disk.history == old(disk.history) + p.states
            && ClientState(disk.Now(), db.t) == p.client && going == p.going
  {
    hide Queue.Valid, Serve, Request, MarkedPrefix, Received, Rebuilding, Collect, I.Upsert, I.Valid, I.Narrow,
      Transmittable, Trimmed, LocalAt, Hashable, Refreshed, SyncClient.Sendable, Start, RoundFits, Idle, Step;
    ghost var c := ClientState(disk.Now(), db.t);
    var found := FindFile(manifest, q.fileId, q.relativePath);
    if found.None? {
      UnknownFile(env, c, q);
      return false;
    }
    var f := found.value;
    ghost var spec := JobOf(MD5HEX, env, c.index, f, q);
    var path := PathOf(env.root, q.relativePath);
    var job := Job(path, TaskIdOf(q), f.chunks, f.summary.rootHash, q.missing, None, AnswerWith([]), env.faults(q));
    AsksAsSpecified(env, c, f, q, job);
    StepEnds(env, c, f, q);
    var prefix, request := SyncClient.BeginTask(disk, job);
    var replies, received := FetchChunks(client, server, env.server, q.(missing := request));
    if received.None? {
      return false;
    }
    AnswersAreSendable(env, q, f, job, replies);
    going := FinishFile(env, disk, db, q, job, spec, prefix, request, replies, received.value);
  }

  // ---------- The whole session ----------

  const COMPLETED := Text("sync_v1 completed")

  /** The manifest arrives as it was built. */
  lemma ManifestArrives(s: State)
    requires Transmittable(Manifest(ManifestFiles(s.records))) && forall r | r in s.records :: |r.chunks| < TWO_32
    ensures var frame := FrameOf(Manifest(ManifestFiles(s.records)));
            Decoded(frame, MANIFEST_SUMMARY, ParseManifest(frame.payload, 0)) == Ok(ManifestFiles(s.records))
  {
    hide ParseManifest, ManifestText, Encodable;
    var files := ManifestFiles(s.records);
    DecodesBack(Manifest(files));
    forall i | 0 <= i < |files|
      ensures AllSeen(files)[i] == files[i]
    {
      assert s.records[i] in s.records;
    }
    assert AllSeen(files) == files;
  }

  lemma HelloArrives(hello: Hello)
    requires Transmittable(Greeting(hello))
    ensures Decoded(FrameOf(Greeting(hello)), HELLO, ParseHello(HelloText(hello), 0)) == Ok(hello)
  {
    hide ParseHello, HelloText, Encodable;
    DecodesBack(Greeting(hello));
  }

  /** hello and manifest, and what the client makes of them. */
  method Handshake(
    client: InMemoryEndpoint, server: InMemoryEndpoint, s: State, hello: Hello) returns (manifest: seq<ManifestFile>)
    requires Linked(client, server) && Idle(client, server)
    requires Transmittable(Greeting(hello)) && Transmittable(Manifest(ManifestFiles(s.records)))
    requires forall r | r in s.records :: |r.chunks| < TWO_32
    modifies client.inbox, client.outbox
    ensures Idle(client, server) && manifest == ManifestFiles(s.records)
    ensures client.outbox.pushed == old(client.outbox.pushed)
    ensures client.inbox.pushed
         == old(client.inbox.pushed) + [FrameOf(Greeting(hello)), FrameOf(Manifest(ManifestFiles(s.records)))]
  {
    hide Queue.Valid, ParseHello, ParseManifest, HelloText, ManifestText, Encodable;
    var frame := EncodeHello(hello);
    var sent := server.Send(frame);
    var built := BuildManifest(s.records);
    assert built == ManifestFiles(s.records);
    var second := EncodeManifestSummary(built);
    sent := server.Send(second);
    assert client.inbox.frames == [frame, second];
    HelloArrives(hello);
    ManifestArrives(s);
    assert second == FrameOf(Manifest(ManifestFiles(s.records)));
    var received;
    received, frame := client.Receive();
    var greeting := DecodeHello(frame);
    assert client.inbox.frames == [FrameOf(Greeting(hello)), second][1..] == [second];
    received, frame := client.Receive();
    assert frame == ([frame] + client.inbox.frames)[0] == second;
    var decoded := DecodeManifestSummary(frame);
    manifest := decoded.value;
  }

  /** A frame that says the session went through: its acknowledgement reads as a success, of no file in particular. */
  ghost predicate SaysSuccess(frame: Frame) {
    && frame.messageType == SYNC_ACK && ParseAck(frame.payload, 0).Got?
    && var ack := ParseAck(frame.payload, 0).value;
       ack.success && ack.fileId == [] && ack.relativePath == [] && ack.detail == Text("sync_v1 completed")
  }

  /** The client's last frame ends the server's loop; the server decodes a success. */
  method SendAck(client: InMemoryEndpoint, server: InMemoryEndpoint, s: State) returns (taken: Option<SyncAck>)
    requires Linked(client, server) && Idle(client, server)
    modifies client.inbox, client.outbox
    ensures Idle(client, server) && taken.Some? && taken.value.success
    ensures exists frame :: SaysSuccess(frame) && client.outbox.pushed == old(client.outbox.pushed) + [frame]
  {
    hide Queue.Valid, ParseAck;
    var ack := SyncAck([], [], true, COMPLETED);
    SmallAck(ack);
    AckDecodes(ack);
    var frame := EncodeSyncAck(ack);
    var sent := client.Send(frame);
    var status;
    status, taken := ServerTurn(s, server);
    assert FramesOf([]) == [];
    assert SaysSuccess(frame);
  }

  lemma SmallAck(ack: SyncAck)
    requires |ack.fileId| + |ack.relativePath| + |ack.detail| < 1000
    ensures Transmittable(Acknowledge(ack))
  {
    DigitsAreShort(|ack.fileId|);
    DigitsAreShort(|ack.relativePath|);
    DigitsAreShort(|ack.detail|);
  }

  lemma AckDecodes(ack: SyncAck)
    requires Transmittable(Acknowledge(ack))
    ensures ParseAck(AckText(ack), 0).Got? && ParseAck(AckText(ack), 0).value == ack
  {
    hide ParseAck, AckText, Encodable;
    DecodesBack(Acknowledge(ack));
  }

  /** Everything a session can send is transmittable. t: the client's file index. */
  ghost predicate SessionFits(env: Environment, t: I.Tables, hello: Hello) {
    && Transmittable(Greeting(hello)) && Transmittable(Manifest(ManifestFiles(env.server.records)))
    && (forall r | r in env.server.records :: |r.chunks| < TWO_32)
    && forall local, q | Asked(env, t, local, q) :: FileFits(env, q)
  }

  /** q is a request that Compare makes of this manifest and a list of the index. */
  ghost predicate Asked(env: Environment, t: I.Tables, local: seq<FileRecord>, q: ChunksRequest) {
    I.ListsFiles(t, local) && q in Compared(local, ManifestFiles(env.server.records)).requests
  }

  /** What the client sends for these requests, up to the one that stops it. */
  ghost function SessionAsks(env: Environment, c: ClientState, requests: seq<ChunksRequest>): seq<Frame> {
    if requests == [] then []
    else
      var front := requests[..|requests| - 1];
      var before := Steps(MD5HEX, env, c, front);
      SessionAsks(env, c, front) + if before.going then FileAsk(env, before.client, requests[|requests| - 1]) else []
  }

  lemma NoAsks(env: Environment, c: ClientState)
    ensures SessionAsks(env, c, []) == []
  {
  }

  lemma NextAsk(env: Environment, c: ClientState, requests: seq<ChunksRequest>, k: nat)
    requires k < |requests| && Steps(MD5HEX, env, c, requests[..k]).going
    ensures SessionAsks(env, c, requests[..k + 1])
         == SessionAsks(env, c, requests[..k])
            + FileAsk(env, Steps(MD5HEX, env, c, requests[..k]).client, requests[k])
  {
    hide Steps, FileAsk;
    assert requests[..k + 1][..k] == requests[..k];
  }

  lemma {:induction false} NoMoreAsks(env: Environment, c: ClientState, requests: seq<ChunksRequest>, k: nat)
    requires k <= |requests| && !Steps(MD5HEX, env, c, requests[..k]).going
    ensures SessionAsks(env, c, requests) == SessionAsks(env, c, requests[..k])
  {
    hide Steps, FileAsk;
    if k < |requests| {
      var front := requests[..|requests| - 1];
      assert front[..k] == requests[..k];
      StopsForGood(MD5HEX, env, c, front, k);
      NoMoreAsks(env, c, front, k);
    } else {
      assert requests[..k] == requests;
    }
  }

  /** All of them are requests. */
  lemma {:induction false} AsksAreRequests(env: Environment, c: ClientState, requests: seq<ChunksRequest>)
    ensures forall f | f in SessionAsks(env, c, requests) :: f.messageType == MISSING_CHUNKS_REQUEST
  {
    hide Steps;
    if requests != [] {
      AsksAreRequests(env, c, requests[..|requests| - 1]);
    }
  }

  /** Behind what was sent before: the requests, and then an acknowledgement of success if the session went through. */
  ghost predicate Sent(before: seq<Frame>, after: seq<Frame>, asks: seq<Frame>, acknowledged: bool) {
    if acknowledged then exists frame :: SaysSuccess(frame) && after == before + asks + [frame]
    else after == before + asks
  }

  /** An acknowledged session ends with exactly one acknowledgement, which says success; a session that stops sends none. */
  lemma AcknowledgedOnce(
    env: Environment, c: ClientState, requests: seq<ChunksRequest>, before: seq<Frame>, after: seq<Frame>,
    acknowledged: bool)
    requires Sent(before, after, SessionAsks(env, c, requests), acknowledged)
    ensures before <= after
    ensures var sent := after[|before|..];
            && (acknowledged <==> sent != [] && SaysSuccess(sent[|sent| - 1]))
            && forall i | 0 <= i < |sent| && sent[i].messageType == SYNC_ACK :: acknowledged && i == |sent| - 1
  {
    AsksAreRequests(env, c, requests);
    var asks, sent := SessionAsks(env, c, requests), after[|before|..];
    hide SessionAsks, ParseAck;
    assert sent[..|asks|] == asks;
    assert forall i | 0 <= i < |asks| :: sent[i] in asks;
  }

  /**
   A session of both sides over one link. Whatever happens in it, nothing is left under way, and disk and index pass
   through exactly the states of the client's loop. The acknowledgement is sent exactly if that loop goes through: as
   the last frame and the only one of its type, which the server reads as a success.
   */
  method RunSession(
    client: InMemoryEndpoint, server: InMemoryEndpoint, env: Environment, disk: ClientDisk, db: I.Database,
    hello: Hello)
    returns (ghost local: seq<FileRecord>, requests: seq<ChunksRequest>, acknowledged: bool, taken: Option<SyncAck>)
    requires Linked(client, server) && Idle(client, server)
    requires I.Valid(db.t) && I.Narrow(db.t) && SessionFits(env, db.t, hello)
    modifies client.inbox, client.outbox, disk, db
    ensures Idle(client, server) && I.Valid(db.t) && I.Narrow(db.t)
    ensures I.ListsFiles(old(db.t), local) && requests == Compared(local, ManifestFiles(env.server.records)).requests
    ensures var p := Steps(MD5HEX, env, ClientState(old(disk.Now()), old(db.t)), requests);
            && disk.history == old(disk.history) + p.states
            && ClientState(disk.Now(), db.t) == p.client && acknowledged == p.going
    ensures acknowledged <==> taken.Some?
    ensures taken.Some? ==> taken.value.success
    ensures var asks := SessionAsks(env, ClientState(old(disk.Now()), old(db.t)), requests);
            Sent(old(client.outbox.pushed), client.outbox.pushed, asks, acknowledged)
  {
    hide Queue.Valid, Transmittable, Compared, FileFits, Idle, I.ListsFiles, I.Valid, I.Narrow, Step, Steps,
      SessionAsks, SaysSuccess, FileAsk;
    var manifest := Handshake(client, server, env.server, hello);
    var listed := db.ListFiles();
    local := listed;
    var result := Compare(listed, manifest);
    requests, acknowledged, taken := result.requests, false, None;
    ghost var before := client.outbox.pushed;
    ghost var c := ClientState(disk.Now(), db.t);
    NoSteps(MD5HEX, env, c);
    NoAsks(env, c);
    assert requests[..0] == [];
    for i := 0 to |requests|
      invariant Idle(client, server) && I.Valid(db.t) && I.Narrow(db.t)
      invariant var p := Steps(MD5HEX, env, c, requests[..i]);
                && p.going && disk.history == old(disk.history) + p.states
                && ClientState(disk.Now(), db.t) == p.client
      invariant client.outbox.pushed == before + SessionAsks(env, c, requests[..i])
    {
      assert Asked(env, c.index, local, requests[i]);
      NextStep(MD5HEX, env, c, requests, i);
      NextAsk(env, c, requests, i);
      var going := SyncFile(client, server, env, disk, db, manifest, requests[i]);
      if !going {
        StopsForGood(MD5HEX, env, c, requests, i + 1);
        NoMoreAsks(env, c, requests, i + 1);
        return;
      }
    }
    assert requests[..|requests|] == requests;
    taken := SendAck(client, server, env.server);
    acknowledged := taken.Some?;
  }
}
