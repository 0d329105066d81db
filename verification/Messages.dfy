/** The codec as one law over all messages. */
module Messages {
  import opened Base
  import opened Wire
  import opened Chunks
  import opened Diff
  import opened Codec

  datatype Message =
    | Greeting(hello: Hello)
    | Manifest(files: seq<ManifestFile>)
    | Ask(request: ChunksRequest)
    | Deliver(data: ChunkData)
    | Acknowledge(ack: SyncAck)
    | Complain(detail: Str)

  /** What a message looks like on the other side: a manifest's chunk counts are those of its chunk lists. */
  function Arrived(m: Message): Message {
    if m.Manifest? then Manifest(AllSeen(m.files)) else m
  }

  /** The field widths of the C++ structs, and a chunk header that states the size of its payload. */
  predicate Encodable(m: Message) {
    match m
    case Manifest(files) => forall f | f in files :: FileFits(f)
    case Ask(request) => forall c | c in request.missing :: ChunkFits(c)
    case Deliver(data) => HeaderFits(data.header) && data.header.payloadSize == |data.bytes|
    case _ => true
  }

  function FrameOf(m: Message): Frame {
    match m
    case Greeting(hello) => Frame(HELLO, HelloText(hello))
    case Manifest(files) => Frame(MANIFEST_SUMMARY, ManifestText(files))
    case Ask(request) => Frame(MISSING_CHUNKS_REQUEST, RequestText(request))
    case Deliver(data) => Frame(CHUNK_DATA, DataText(data))
    case Acknowledge(ack) => Frame(SYNC_ACK, AckText(ack))
    case Complain(detail) => Frame(ERROR, StringText(detail))
  }

  function Map<T, U>(p: Parsed<T>, f: T -> U): Parsed<U> {
    if p.Bad? then Bad else Got(f(p.value), p.next)
  }

  /** The decoder of each type, run from the start of the payload. */
  function ParseFrame(frame: Frame): Parsed<Message> {
    var b := frame.payload;
    if frame.messageType == HELLO then Map(ParseHello(b, 0), m => Greeting(m))
    else if frame.messageType == MANIFEST_SUMMARY then Map(ParseManifest(b, 0), m => Manifest(m))
    else if frame.messageType == MISSING_CHUNKS_REQUEST then Map(ParseRequest(b, 0), m => Ask(m))
    else if frame.messageType == CHUNK_DATA then Map(ParseData(b, 0), m => Deliver(m))
    else if frame.messageType == SYNC_ACK then Map(ParseAck(b, 0), m => Acknowledge(m))
    else if frame.messageType == ERROR then Map(ParseString(b, 0), m => Complain(m))
    else Bad
  }

  lemma {:induction false} ChunksTextIsLong(chunks: seq<ChunkEntry>)
    ensures |chunks| <= |ChunksText(chunks)|
  {
    hide NumberText, StringText;
    if chunks != [] {
      ChunksTextIsLong(chunks[..|chunks| - 1]);
    }
  }

  lemma {:induction false} FilesTextIsLong(files: seq<ManifestFile>)
    ensures |files| <= |FilesText(files)|
  {
    hide NumberText, SummaryText;
    if files != [] {
      FilesTextIsLong(files[..|files| - 1]);
    }
  }

  /** Decoding an encoding, whatever bytes follow it, gives the message and stops exactly at its end. */
  lemma ReadsBackWithResidue(m: Message, residue: Str)
    requires Encodable(m) && |FrameOf(m).payload + residue| < TWO_64
    ensures ParseFrame(Frame(FrameOf(m).messageType, FrameOf(m).payload + residue))
         == Got(Arrived(m), |FrameOf(m).payload|)
  {
    hide ParseHello, ParseManifest, ParseRequest, ParseData, ParseAck, ParseString, FileFits, ChunkFits, HeaderFits, At;
    hide HelloText, DataText, AckText, StringText, FilesText, ChunksText, SummaryText, NumberText;
    var text := FrameOf(m).payload;
    var b := text + residue;
    AtStart(text, residue);
    match m
    case Greeting(hello) => HelloAt(b, 0, hello);
    case Manifest(files) =>
      FilesTextIsLong(files);
      ManifestReadsBack(b, 0, files);
    case Ask(request) =>
      ChunksTextIsLong(request.missing);
      RequestReadsBack(b, 0, request);
    case Deliver(data) => DataReadsBack(b, 0, data);
    case Acknowledge(ack) => AckReadsBack(b, 0, ack);
    case Complain(detail) => StringAt(b, 0, detail);
  }

  /** No encoding is the start of another of its type: what was sent can be told apart without knowing where it ends. */
  lemma EncodingIsPrefixFree(m: Message, n: Message, x: Str, y: Str)
    requires Encodable(m) && Encodable(n) && FrameOf(m).messageType == FrameOf(n).messageType
    requires FrameOf(m).payload + x == FrameOf(n).payload + y && |FrameOf(m).payload + x| < TWO_64
    ensures Arrived(m) == Arrived(n) && x == y
  {
    ReadsBackWithResidue(m, x);
    ReadsBackWithResidue(n, y);
    hide FrameOf, ParseFrame, Arrived;
    var k := |FrameOf(m).payload|;
    assert x == (FrameOf(m).payload + x)[k..] && y == (FrameOf(n).payload + y)[k..];
  }
}
