/** Frames as bytes: a big-endian type and size in front of the payload. */
module Framing {
  import opened Base
  import opened Wire
  import opened Codec
  import opened Messages

  /** HostToNet32, as the four bytes that go on the wire. */
  function NetBytes(v: nat): (b: Bytes)
    requires v < TWO_32
    ensures |b| == 4
  {
    [(v / 0x100_0000) as byte, (v / 0x1_0000 % 256) as byte, (v / 0x100 % 256) as byte, (v % 256) as byte]
  }

  /** NetToHost32 of four received bytes. */
  function HostNumber(b: Bytes): (v: nat)
    requires |b| == 4
    ensures v < TWO_32
  {
    b[0] as nat * 0x100_0000 + b[1] as nat * 0x1_0000 + b[2] as nat * 0x100 + b[3] as nat
  }

  lemma NetRoundTrip(v: nat)
    requires v < TWO_32
    ensures HostNumber(NetBytes(v)) == v
  {
    var a, b, c := v / 0x100_0000, v / 0x1_0000, v / 0x100;
    assert v == 0x100 * c + v % 256 && c == 256 * b + c % 256 && b == 256 * a + b % 256;
  }

  /** Network order: the bytes of a lower number come before those of a higher one. */
  lemma NetworkOrder(v: nat, w: nat)
    requires v < w < TWO_32
    ensures Before(NetBytes(v), NetBytes(w))
  {
    var b, c := NetBytes(v), NetBytes(w);
    FourQuotients(v, w);
    var k: nat :=
      if v / 0x100_0000 < w / 0x100_0000 then 0
      else if v / 0x1_0000 < w / 0x1_0000 then 1
      else if v / 0x100 < w / 0x100 then 2
      else 3;
    assert IsLower(b, c, k);
    BeforeIs(b, c);
  }

  lemma FourQuotients(v: nat, w: nat)
    requires v < w < TWO_32
    ensures v / 0x100 <= w / 0x100 && v / 0x1_0000 <= w / 0x1_0000 && v / 0x100_0000 <= w / 0x100_0000
    ensures v / 0x100 == w / 0x100 ==> v % 0x100 < w % 0x100
    ensures v / 0x1_0000 == w / 0x1_0000 && v / 0x100 < w / 0x100 ==> v / 0x100 % 0x100 < w / 0x100 % 0x100
    ensures v / 0x100_0000 == w / 0x100_0000 && v / 0x1_0000 < w / 0x1_0000 ==> v / 0x1_0000 % 0x100 < w / 0x1_0000 % 0x100
  {
    Shorter(v);
    Shorter(w);
  }

  lemma Shorter(v: nat)
    ensures v == 0x100 * (v / 0x100) + v % 0x100
    ensures v / 0x100 == 0x100 * (v / 0x1_0000) + v / 0x100 % 0x100
    ensures v / 0x1_0000 == 0x100 * (v / 0x100_0000) + v / 0x1_0000 % 0x100
  {
  }

  /** What Send writes: the size is truncated to 32 bits, the payload is not. */
  function FrameBytes(f: Frame): (b: Bytes)
    ensures |b| == 8 + |f.payload|
  {
    NetBytes(f.messageType as nat) + NetBytes(|f.payload| % TWO_32) + f.payload
  }

  /** Type first, then the size modulo 2^32, each in four bytes of which the first counts most; then the payload. */
  lemma FrameLayout(f: Frame)
    ensures var b := FrameBytes(f);
            && b[0] == b[1] == b[2] == 0 && b[3] == f.messageType
            && 0x100_0000 * b[4] as nat + 0x1_0000 * b[5] as nat + 0x100 * b[6] as nat + b[7] as nat
               == |f.payload| % TWO_32
            && b[8..] == f.payload
  {
    NetRoundTrip(|f.payload| % TWO_32);
    assert FrameBytes(f)[4..8] == NetBytes(|f.payload| % TWO_32);
  }

  /** What Receive makes of the bytes still to come: a frame and the rest, or the end of the stream. */
  datatype Incoming = Complete(frame: Frame, rest: Bytes) | Ended

  function NextFrame(s: Bytes): (r: Incoming)
    ensures r.Complete? ==> |r.rest| < |s|
  {
    if |s| < 8 then Ended
    else
      var size := HostNumber(s[4..8]);
      if |s| < 8 + size then Ended
      else Complete(Frame((HostNumber(s[..4]) % 256) as byte, s[8..8 + size]), s[8 + size..])
  }

  /** What a Receive takes: the low byte of the type, as many payload bytes as the size says, and nothing more. */
  lemma TakenFrame(s: Bytes)
    requires |s| >= 8
    ensures var size := 0x100_0000 * s[4] as nat + 0x1_0000 * s[5] as nat + 0x100 * s[6] as nat + s[7] as nat;
            NextFrame(s) == if |s| < 8 + size then Ended else Complete(Frame(s[3], s[8..8 + size]), s[8 + size..])
  {
    var b, n := s[..4], HostNumber(s[..4]);
    assert n == 0x100 * (0x1_0000 * b[0] as nat + 0x100 * b[1] as nat + b[2] as nat) + b[3] as nat;
  }

  /** The frames successive Receives return until one returns false. */
  function AllFrames(s: Bytes): seq<Frame>
    decreases |s|
  {
    var r := NextFrame(s);
    if r.Ended? then [] else [r.frame] + AllFrames(r.rest)
  }

  function StreamOf(frames: seq<Frame>): Bytes {
    if frames == [] then [] else FrameBytes(frames[0]) + StreamOf(frames[1..])
  }

  lemma {:induction false} StreamSnoc(frames: seq<Frame>, f: Frame)
    ensures StreamOf(frames + [f]) == StreamOf(frames) + FrameBytes(f)
  {
    hide FrameBytes;
    if frames == [] {
      assert ([] + [f])[1..] == [];
    } else {
      assert (frames + [f])[1..] == frames[1..] + [f];
      StreamSnoc(frames[1..], f);
    }
  }

  /** The frames of the first part of a list come first in its stream. */
  lemma {:induction false} StreamPrefix(frames: seq<Frame>, n: nat)
    requires n <= |frames|
    ensures |StreamOf(frames[..n])| <= |StreamOf(frames)|
    ensures StreamOf(frames)[..|StreamOf(frames[..n])|] == StreamOf(frames[..n])
  {
    hide FrameBytes;
    if n < |frames| {
      var front, last := frames[..|frames| - 1], frames[|frames| - 1];
      StreamPrefix(front, n);
      StreamSnoc(front, last);
      assert front + [last] == frames && front[..n] == frames[..n];
    } else {
      assert frames[..n] == frames;
    }
  }

  predicate Framable(f: Frame) { |f.payload| < TWO_32 }

  lemma Header(f: Frame, rest: Bytes)
    ensures var s := FrameBytes(f) + rest;
            && |s| >= 8 && HostNumber(s[..4]) == f.messageType as nat && HostNumber(s[4..8]) == |f.payload| % TWO_32
            && s[8..] == f.payload + rest
  {
    var s := FrameBytes(f) + rest;
    assert s[..4] == NetBytes(f.messageType as nat) && s[4..8] == NetBytes(|f.payload| % TWO_32);
    NetRoundTrip(f.messageType as nat);
    NetRoundTrip(|f.payload| % TWO_32);
  }

  /** A frame is received as it was sent if and only if its payload is shorter than 2^32. */
  lemma FrameSurvives(f: Frame, rest: Bytes)
    ensures NextFrame(FrameBytes(f) + rest) == Complete(f, rest) <==> Framable(f)
  {
    Header(f, rest);
    hide HostNumber, FrameBytes;
    var s := FrameBytes(f) + rest;
    var size := |f.payload| % TWO_32;
    if Framable(f) {
      assert s[8..8 + size] == s[8..][..size] && s[8 + size..] == s[8..][size..];
      assert (f.payload + rest)[..size] == f.payload && (f.payload + rest)[size..] == rest;
    }
  }

  /** Every sequence of frames shorter than 2^32 is received exactly, in order, and then the stream ends. */
  lemma {:induction false} FramesSurvive(frames: seq<Frame>)
    requires forall f | f in frames :: Framable(f)
    ensures AllFrames(StreamOf(frames)) == frames
  {
    if frames != [] {
      FrameSurvives(frames[0], StreamOf(frames[1..]));
      FramesSurvive(frames[1..]);
    }
  }

  /** A frame of which some bytes are missing is not received at all. */
  lemma CutFrame(f: Frame, k: nat)
    requires Framable(f) && k < |FrameBytes(f)|
    ensures NextFrame(FrameBytes(f)[..k]) == Ended
  {
    if k >= 8 {
      Header(f, []);
      hide HostNumber;
      var s := FrameBytes(f);
      assert s + [] == s;
      assert s[..k][4..8] == s[4..8];
    }
  }

  /** A connection that breaks after k bytes delivers a first part of the frames; all of them only if nothing was lost. */
  lemma {:induction false} BrokenStream(frames: seq<Frame>, k: nat)
    requires (forall f | f in frames :: Framable(f)) && k <= |StreamOf(frames)|
    ensures AllFrames(StreamOf(frames)[..k]) <= frames
    ensures AllFrames(StreamOf(frames)[..k]) == frames <==> k == |StreamOf(frames)|
  {
    hide FrameBytes, NextFrame, Framable;
    if frames == [] {
      assert NextFrame([]) == Ended by { EmptyStream(); }
    } else {
      var f, rest := frames[0], StreamOf(frames[1..]);
      var n := |FrameBytes(f)|;
      if k < n {
        assert StreamOf(frames)[..k] == FrameBytes(f)[..k];
        CutFrame(f, k);
      } else {
        assert StreamOf(frames)[..k] == FrameBytes(f) + rest[..k - n];
        FrameSurvives(f, rest[..k - n]);
        BrokenStream(frames[1..], k - n);
      }
    }
  }

  lemma EmptyStream()
    ensures NextFrame([]) == Ended
  {
  }

  // ---------- Composed with the codec ----------

  function FramesOf(messages: seq<Message>): (frames: seq<Frame>)
    ensures |frames| == |messages| && forall i | 0 <= i < |frames| :: frames[i] == FrameOf(messages[i])
  {
    if messages == [] then [] else [FrameOf(messages[0])] + FramesOf(messages[1..])
  }

  /** Typed messages sent over any byte stream arrive, in order, each decoded to what was sent. */
  lemma MessagesArrive(messages: seq<Message>)
    requires forall m | m in messages :: Encodable(m) && Framable(FrameOf(m))
    ensures var frames := AllFrames(StreamOf(FramesOf(messages)));
            && |frames| == |messages|
            && forall i | 0 <= i < |messages| ::
                 ParseFrame(frames[i]) == Got(Arrived(messages[i]), |frames[i].payload|)
  {
    hide Encodable, FrameOf, ParseFrame, Arrived;
    var frames := FramesOf(messages);
    forall f | f in frames
      ensures Framable(f)
    {
      var i :| 0 <= i < |frames| && frames[i] == f;
      assert messages[i] in messages;
    }
    FramesSurvive(frames);
    forall i | 0 <= i < |messages|
      ensures ParseFrame(frames[i]) == Got(Arrived(messages[i]), |frames[i].payload|)
    {
      var m := messages[i];
      assert m in messages;
      ReadsBackWithResidue(m, []);
      assert FrameOf(m).payload + [] == FrameOf(m).payload;
    }
  }
}
