/** Transport endpoints: a socket that takes and gives as many bytes as it likes at a time, and a pair of queues. */
module Transport {
  import opened Base
  import opened Codec
  import opened Framing

  /** send and recv on a connected socket. incoming: what the peer still delivers before it closes. */
  class Socket {
    var outgoing: Bytes
    var incoming: Bytes

    constructor (toCome: Bytes)
      ensures outgoing == [] && incoming == toCome
    {
      outgoing, incoming := [], toCome;
    }

    /** Takes any positive number of the bytes offered, or fails with a result that is not positive. */
    method SendSome(buffer: Bytes) returns (rc: int)
      requires buffer != []
      modifies this`outgoing
      ensures rc <= |buffer|
      ensures outgoing == old(outgoing) + if rc > 0 then buffer[..rc] else []
    {
      rc := *;
      if rc > |buffer| {
        rc := |buffer|;
      }
      if rc > 0 {
        outgoing := outgoing + buffer[..rc];
      }
    }

    /** Gives any positive number of bytes up to size, 0 at the end of the stream, or fails with a negative result. */
    method RecvSome(size: nat) returns (rc: int, bytes: Bytes)
      requires size > 0
      modifies this`incoming
      ensures rc <= size && |bytes| == if rc > 0 then rc else 0
      ensures rc == 0 ==> incoming == []
      ensures old(incoming) == bytes + incoming
    {
      rc := *;
      if rc >= 0 {
        rc := Min(Min(if rc == 0 then 1 else rc, size), |incoming|);
      }
      bytes := incoming[..if rc > 0 then rc else 0];
      incoming := incoming[|bytes|..];
    }
  }

  method WriteAll(socket: Socket, buffer: Bytes) returns (r: Result<()>)
    modifies socket`outgoing
    ensures r.Ok? ==> socket.outgoing == old(socket.outgoing) + buffer
    ensures r.Err? ==> exists k :: 0 <= k < |buffer| && socket.outgoing == old(socket.outgoing) + buffer[..k]
  {
    var written := 0;
    while written < |buffer|
      invariant 0 <= written <= |buffer|
      invariant socket.outgoing == old(socket.outgoing) + buffer[..written]
    {
      var rc := socket.SendSome(buffer[written..]);
      if rc <= 0 {
        return Err;
      }
      assert buffer[..written] + buffer[written..][..rc] == buffer[..written + rc];
      written := written + rc;
    }
    assert buffer[..written] == buffer;
    r := Ok(());
  }

  /** Ok(true): bytes are the next size bytes. Ok(false): the stream ended before. */
  method ReadExact(socket: Socket, size: nat) returns (r: Result<bool>, bytes: Bytes)
    modifies socket`incoming
    ensures old(socket.incoming) == bytes + socket.incoming && |bytes| <= size
    ensures r == Ok(true) ==> |bytes| == size
    ensures r == Ok(false) ==> |bytes| < size && socket.incoming == []
  {
    bytes := [];
    while |bytes| < size
      invariant |bytes| <= size && old(socket.incoming) == bytes + socket.incoming
      decreases size - |bytes|
    {
      var rc, more := socket.RecvSome(size - |bytes|);
      bytes := bytes + more;
      if rc == 0 {
        return Ok(false), bytes;
      }
      if rc < 0 {
        return Err, bytes;
      }
    }
    r := Ok(true);
  }

  /** The first k bytes of the middle part of a frame, behind the whole of its first part. */
  lemma PartOfAll(before: Bytes, a: Bytes, b: Bytes, c: Bytes, k: nat)
    requires k <= |b|
    ensures before + a + b[..k] == before + (a + b + c)[..|a| + k]
  {
    assert (a + b + c)[..|a| + k] == a + b[..k];
  }

  class SocketEndpoint {
    const socket: Socket

    constructor (socket: Socket)
      ensures this.socket == socket
    {
      this.socket := socket;
    }

    /** A frame goes out whole, or a first part of it and an exception. */
    method Send(frame: Frame) returns (r: Result<()>)
      modifies socket`outgoing
      ensures r.Ok? ==> socket.outgoing == old(socket.outgoing) + FrameBytes(frame)
      ensures r.Err? ==> exists k :: 0 <= k < |FrameBytes(frame)| &&
                           socket.outgoing == old(socket.outgoing) + FrameBytes(frame)[..k]
    {
      hide NetBytes;
      var messageType := NetBytes(frame.messageType as nat);
      var size := NetBytes(|frame.payload| % TWO_32);
      ghost var before := socket.outgoing;
      assert FrameBytes(frame) == messageType + size + frame.payload;
      hide FrameBytes;
      r := WriteAll(socket, messageType);
      if r.Err? {
        ghost var k :| 0 <= k < 4 && socket.outgoing == before + messageType[..k];
        PartOfAll(before, [], messageType, size + frame.payload, k);
        assert [] + messageType + (size + frame.payload) == FrameBytes(frame);
        return;
      }
      r := WriteAll(socket, size);
      if r.Err? {
        ghost var k :| 0 <= k < 4 && socket.outgoing == before + messageType + size[..k];
        PartOfAll(before, messageType, size, frame.payload, k);
        return;
      }
      assert socket.outgoing == before + (messageType + size);
      if frame.payload != [] {
        r := WriteAll(socket, frame.payload);
        if r.Err? {
          ghost var k :| 0 <= k < |frame.payload| && socket.outgoing == before + (messageType + size) + frame.payload[..k];
          PartOfAll(before, messageType + size, frame.payload, [], k);
          assert messageType + size + frame.payload + [] == FrameBytes(frame);
          return;
        }
      }
      assert socket.outgoing == before + FrameBytes(frame);
    }

    /** For every schedule of partial receives: the next frame of the stream, or false exactly when there is none. */
    method Receive() returns (r: Result<bool>, frame: Frame)
      modifies socket`incoming
      ensures r.Ok? ==> r.value == NextFrame(old(socket.incoming)).Complete?
      ensures r == Ok(true) ==> NextFrame(old(socket.incoming)) == Complete(frame, socket.incoming)
      ensures r == Ok(false) ==> socket.incoming == []
    {
      hide HostNumber;
      frame := Frame(ERROR, []);
      ghost var s := socket.incoming;
      var messageType, size, payload;
      r, messageType := ReadExact(socket, 4);
      if r != Ok(true) {
        return;
      }
      r, size := ReadExact(socket, 4);
      assert s == messageType + size + socket.incoming;
      if r != Ok(true) {
        return;
      }
      assert s[..4] == messageType && s[4..8] == size && s[8..] == socket.incoming;
      payload := [];
      if HostNumber(size) > 0 {
        r, payload := ReadExact(socket, HostNumber(size));
        if r != Ok(true) {
          return;
        }
      }
      frame := Frame((HostNumber(messageType) % 256) as byte, payload);
      assert s[8..] == payload + socket.incoming;
      assert s[8..8 + |payload|] == s[8..][..|payload|] && s[8 + |payload|..] == s[8..][|payload|..];
    }
  }

  // ---------- Whole connections ----------

  method SendFrames(endpoint: SocketEndpoint, frames: seq<Frame>) returns (r: Result<()>)
    modifies endpoint.socket`outgoing
    ensures r.Ok? ==> endpoint.socket.outgoing == old(endpoint.socket.outgoing) + StreamOf(frames)
    ensures r.Err? ==> exists k :: 0 <= k < |StreamOf(frames)| &&
                         endpoint.socket.outgoing == old(endpoint.socket.outgoing) + StreamOf(frames)[..k]
  {
    hide FrameBytes, StreamOf;
    assert StreamOf(frames[..0]) == [] by {
      EmptyList(frames[..0]);
    }
    ghost var before := endpoint.socket.outgoing;
    for i := 0 to |frames|
      invariant endpoint.socket.outgoing == before + StreamOf(frames[..i])
    {
      assert frames[..i + 1] == frames[..i] + [frames[i]];
      StreamSnoc(frames[..i], frames[i]);
      StreamPrefix(frames, i + 1);
      r := endpoint.Send(frames[i]);
      if r.Err? {
        ghost var k :| 0 <= k < |FrameBytes(frames[i])| &&
                       endpoint.socket.outgoing == before + StreamOf(frames[..i]) + FrameBytes(frames[i])[..k];
        ghost var n := |StreamOf(frames[..i])| + k;
        assert StreamOf(frames)[..n] == StreamOf(frames[..i + 1])[..n];
        assert endpoint.socket.outgoing == before + StreamOf(frames)[..n];
        return;
      }
    }
    assert frames[..|frames|] == frames;
    r := Ok(());
  }

  lemma EmptyList(frames: seq<Frame>)
    requires frames == []
    ensures StreamOf(frames) == []
  {
  }

  /** Receives until the end of the stream: all its frames, or a first part of them and an exception. */
  method ReceiveFrames(endpoint: SocketEndpoint) returns (r: Result<()>, frames: seq<Frame>)
    modifies endpoint.socket`incoming
    ensures frames <= AllFrames(old(endpoint.socket.incoming))
    ensures r.Ok? ==> frames == AllFrames(old(endpoint.socket.incoming))
  {
    hide NextFrame;
    ghost var all := AllFrames(endpoint.socket.incoming);
    frames := [];
    var more := true;
    while more
      invariant more ==> all == frames + AllFrames(endpoint.socket.incoming)
      invariant !more ==> all == frames
      decreases more, |endpoint.socket.incoming|
    {
      ghost var s := endpoint.socket.incoming;
      var received, frame := endpoint.Receive();
      if received.Err? {
        return Err, frames;
      }
      more := received.value;
      if more {
        assert AllFrames(s) == [frame] + AllFrames(endpoint.socket.incoming);
        frames := frames + [frame];
      }
    }
    r := Ok(());
  }

  /**
   One connection, for every schedule of partial sends and receives: the frames received are the first of those sent, and
   exactly those sent if neither side fails.
   */
  method Connection(frames: seq<Frame>) returns (sent: Result<()>, received: Result<()>, got: seq<Frame>)
    requires forall f | f in frames :: Framable(f)
    ensures got <= frames
    ensures sent.Ok? && received.Ok? ==> got == frames
  {
    var near := new Socket([]);
    var sender := new SocketEndpoint(near);
    sent := SendFrames(sender, frames);
    var far := new Socket(near.outgoing);
    var receiver := new SocketEndpoint(far);
    received, got := ReceiveFrames(receiver);
    ghost var k := |near.outgoing|;
    assert near.outgoing == StreamOf(frames)[..k];
    BrokenStream(frames, k);
  }

  // ---------- The in-memory pair ----------

  /** A queue two endpoints share. pushed and popped are all frames that ever entered and left it. */
  class Queue {
    var frames: seq<Frame>
    ghost var pushed: seq<Frame>
    ghost var popped: seq<Frame>

    constructor ()
      ensures Valid() && frames == [] && pushed == []
    {
      frames, pushed, popped := [], [], [];
    }

    /** Nothing is lost, duplicated or reordered. */
    ghost predicate Valid()
      reads this
    {
      pushed == popped + frames
    }
  }

  class InMemoryEndpoint {
    const inbox: Queue?
    const outbox: Queue?

    constructor (inbox: Queue?, outbox: Queue?)
      ensures this.inbox == inbox && this.outbox == outbox
    {
      this.inbox, this.outbox := inbox, outbox;
    }

    method Send(frame: Frame) returns (r: Result<()>)
      requires outbox != null ==> outbox.Valid()
      modifies outbox
      ensures r.Err? <==> outbox == null
      ensures outbox != null ==>
                && outbox.Valid() && outbox.frames == old(outbox.frames) + [frame]
                && outbox.pushed == old(outbox.pushed) + [frame] && outbox.popped == old(outbox.popped)
    {
      if outbox == null {
        return Err;
      }
      outbox.frames := outbox.frames + [frame];
      outbox.pushed := outbox.pushed + [frame];
      r := Ok(());
    }

    method Receive() returns (received: bool, frame: Frame)
      requires inbox != null ==> inbox.Valid()
      modifies inbox
      ensures received <==> inbox != null && old(inbox.frames) != []
      ensures inbox != null ==> inbox.Valid() && inbox.pushed == old(inbox.pushed)
      ensures received ==> old(inbox.frames) == [frame] + inbox.frames && inbox.popped == old(inbox.popped) + [frame]
      ensures inbox != null && !received ==> inbox.frames == [] && inbox.popped == old(inbox.popped)
    {
      frame := Frame(ERROR, []);
      if inbox == null || inbox.frames == [] {
        return false, frame;
      }
      frame := inbox.frames[0];
      inbox.frames := inbox.frames[1..];
      inbox.popped := inbox.popped + [frame];
      received := true;
    }
  }

  /** What one end sends, the other receives. */
  method CreateInMemoryTransportPair() returns (left: InMemoryEndpoint, right: InMemoryEndpoint)
    ensures fresh(left) && fresh(right)
    ensures left.inbox == right.outbox && left.outbox == right.inbox && left.inbox != left.outbox
    ensures left.inbox != null && fresh(left.inbox) && left.inbox.Valid() && left.inbox.frames == []
    ensures left.outbox != null && fresh(left.outbox) && left.outbox.Valid() && left.outbox.frames == []
  {
    var leftInbox := new Queue();
    var rightInbox := new Queue();
    left := new InMemoryEndpoint(leftInbox, rightInbox);
    right := new InMemoryEndpoint(rightInbox, leftInbox);
  }
}
