/** The incremental MD5 context (MD5Init, MD5Update, MD5Final), proved against the one-shot digest. */
module Md5Context {
  import opened Base
  import opened Blocks
  import opened Md5

  // ---------- RFC 1321, sections 3.1, 3.2 and 3.5: padding, length, output ----------

  function Zeros(n: nat): (z: Bytes)
    ensures |z| == n
  {
    seq(n, i => 0)
  }

  /** Section 3.2: the length in bits, modulo 2^64, low-order word first. */
  function LengthBytes(n: nat): (b: Bytes)
    ensures |b| == 8
  {
    ENCODE(WORD(8 * n % TWO_32)) + ENCODE(WORD(8 * n / TWO_32 % TWO_32))
  }

  /** Section 3.1: one 0x80 byte, then zeros until the length is 56 modulo 64; then the length. */
  function Pad(m: Bytes): (p: Bytes)
    ensures |p| % 64 == 0
  {
    m + [0x80] + Zeros((55 - |m|) % 64) + LengthBytes(|m|)
  }

  function Output(q: Quad): (d: Bytes)
    ensures |d| == 16
  {
    ENCODE(q.a) + ENCODE(q.b) + ENCODE(q.c) + ENCODE(q.d)
  }

  /** The part of a message that full blocks have consumed. */
  function Consumed(n: nat): (k: nat)
    ensures k <= n && k % 64 == 0 && n - k == n % 64
  {
    n - n % 64
  }

  /** Section 3.4: the chaining value after the blocks of m (a trailing partial block is not used). */
  ghost function ChainOf(m: Bytes): Quad {
    Fold(COMPRESS, INIT, m[..Consumed(|m|)])
  }

  ghost const CHAIN: Bytes -> Quad := ChainOf

  lemma ChainNext(m: Bytes, block: Block)
    requires |m| % 64 == 0
    ensures CHAIN(m + block) == COMPRESS(CHAIN(m), block)
  {
    assert m[..Consumed(|m|)] == m && (m + block)[..Consumed(|m + block|)] == m + block;
    FoldAppend(COMPRESS, INIT, m, block);
    assert CHAIN(m + block) == ChainOf(m + block) && CHAIN(m) == ChainOf(m);
  }

  lemma ChainEmpty()
    ensures CHAIN([]) == INIT
  {
    assert CHAIN([]) == ChainOf([]);
  }

  /** The MD5 digest of a whole message. */
  ghost function Digest(m: Bytes): (d: Bytes)
    ensures |d| == 16
  {
    Output(CHAIN(Pad(m)))
  }

  // ---------- The arithmetic of the context ----------

  const PADDING: Bytes := [0x80] + Zeros(63)

  /** Where the block loop of MD5Update stops: the last whole block that starts at or before the end. */
  function LoopExit(index: nat, len: nat): (e: nat)
    requires index < 64 && 64 - index <= len
    ensures 64 - index <= e <= len < e + 64 && (index + e) % 64 == 0
  {
    len - (index + len) % 64
  }

  /** The loop guard of MD5Update as a 32-bit machine computes it. */
  predicate GuardHolds(i: nat, len: nat) {
    (i + 64) % TWO_32 <= len
  }

  /** Whether the 32-bit loop counter of MD5Update stays exact: its guard computes i + 64 modulo 2^32. */
  predicate CounterExact(index: nat, len: nat)
    requires index < 64
  {
    len < 64 - index || LoopExit(index, len) + 64 < TWO_32
  }

  /** The 32-bit guard `i + 64 <= inputlen` is the true comparison at every stop of the loop iff the counter is exact. */
  lemma GuardIsExact(index: nat, len: nat)
    requires index < 64 && 64 - index <= len < TWO_32
    ensures CounterExact(index, len) <==>
            forall i: nat :: 64 - index <= i <= LoopExit(index, len) && (index + i) % 64 == 0 ==>
              (GuardHolds(i, len) <==> i < LoopExit(index, len))
  {
    var e := LoopExit(index, len);
    if e + 64 >= TWO_32 {
      assert (e + 64) % TWO_32 == e + 64 - TWO_32;
      assert GuardHolds(e, len);
    } else {
      forall i: nat | 64 - index <= i <= e && (index + i) % 64 == 0
        ensures GuardHolds(i, len) <==> i < e
      {
        assert i + 64 < TWO_32;
      }
    }
  }

  /** A length below 2^32 for which the counter wraps and the guard lets the loop run on. */
  lemma CounterCanWrap()
    ensures !CounterExact(0, TWO_32 - 1) && GuardHolds(LoopExit(0, TWO_32 - 1), TWO_32 - 1)
  {
  }

  lemma SmallLengthsAreExact(index: nat, len: nat)
    requires index < 64 && len < TWO_32 - 64
    ensures CounterExact(index, len)
  {
  }

  /** The two 32-bit count words c0 and c1 hold 8 * n modulo 2^64. */
  ghost predicate Counts(c0: nat, c1: nat, n: nat) {
    c0 < TWO_32 && c1 < TWO_32 && exists k: nat :: CountsAt(c0, c1, n, k)
  }

  ghost predicate CountsAt(c0: nat, c1: nat, n: nat, k: nat) {
    8 * n == (k * TWO_32 + c1) * TWO_32 + c0
  }

  /** Sum of two 32-bit words modulo 2^32, and the carry that the comparison `sum < y` detects. */
  lemma AddWord(x: nat, y: nat)
    requires x < TWO_32 && y < TWO_32
    ensures var sum := (x + y) % TWO_32;
            x + y == sum + (if sum < y then TWO_32 else 0)
  {
  }

  /** MD5Update's carry computation adds 8 * len to the count. */
  lemma CountStep(c0: nat, c1: nat, n: nat, len: nat)
    requires Counts(c0, c1, n) && len < TWO_32
    ensures var low := 8 * len % TWO_32;
            var d0 := (c0 + low) % TWO_32;
            var d1 := if d0 < low then (c1 + 1) % TWO_32 else c1;
            Counts(d0, (d1 + len / 0x2000_0000) % TWO_32, n + len)
  {
    var low, high := 8 * len % TWO_32, len / 0x2000_0000;
    assert 8 * len == high * TWO_32 + low;
    var k: nat :| CountsAt(c0, c1, n, k);
    AddWord(c0, low);
    AddWord(c1, 1);
    var d0 := (c0 + low) % TWO_32;
    var d1 := if d0 < low then (c1 + 1) % TWO_32 else c1;
    var k1 := if d0 < low && c1 + 1 == TWO_32 then k + 1 else k;
    AddWord(d1, high);
    var d2 := (d1 + high) % TWO_32;
    var k2 := if d2 < high then k1 + 1 else k1;
    assert CountsAt(d0, d2, n + len, k2);
  }

  lemma HighLow(x: nat, high: nat, low: nat)
    requires x == high * TWO_32 + low && low < TWO_32
    ensures x / TWO_32 == high && x % TWO_32 == low
  {
  }

  lemma IndexOfLow(low: nat, n: nat, high: nat)
    requires 8 * n == high * TWO_32 + low
    ensures low / 8 % 64 == n % 64
  {
    assert low == 8 * (n - 64 * (high * 0x80_0000));
    assert low / 8 == n - 64 * (high * 0x80_0000);
  }

  /** index = (count[0] >> 3) & 0x3F is the number of buffered bytes. */
  lemma CountsIndex(c0: nat, c1: nat, n: nat)
    requires Counts(c0, c1, n)
    ensures c0 / 8 % 64 == n % 64
  {
    var k: nat :| CountsAt(c0, c1, n, k);
    IndexOfLow(c0, n, k * TWO_32 + c1);
  }

  /** The encoded counts are the length field of the padding. */
  lemma CountsLength(c0: nat, c1: nat, n: nat)
    requires Counts(c0, c1, n)
    ensures ENCODE(WORD(c0)) + ENCODE(WORD(c1)) == LengthBytes(n)
  {
    hide WordOfInt, BytesOfWord;
    var k: nat :| CountsAt(c0, c1, n, k);
    HighLow(8 * n, k * TWO_32 + c1, c0);
    HighLow(k * TWO_32 + c1, k, c1);
  }

  /** padlen brings the length to 56 modulo 64, and PADDING starts with what section 3.1 asks for. */
  lemma PaddingIsPad(m: Bytes, padlen: nat)
    requires padlen == (if |m| % 64 < 56 then 56 - |m| % 64 else 120 - |m| % 64)
    ensures padlen <= 64 && m + PADDING[..padlen] + LengthBytes(|m|) == Pad(m)
  {
    assert PADDING[..padlen] == [0x80] + Zeros((55 - |m|) % 64);
  }

  lemma RestLength(b: nat, r: nat)
    requires b % 64 == 0 && r < 64
    ensures (b + r) % 64 == r
  {
  }

  /** memcpy(&dst[at], src, |src|) */
  method Copy(dst: array<byte>, at: nat, src: Bytes)
    requires at + |src| <= dst.Length
    modifies dst
    ensures dst[..] == old(dst[..at]) + src + old(dst[at + |src|..])
  {
    forall j | at <= j < at + |src| { dst[j] := src[j - at]; }
  }

  // ---------- MD5_CTX ----------

  class Context {
    var count0: nat
    var count1: nat
    const state: array<Word>
    const buffer: array<byte>
    ghost var blocks: Bytes  // the full blocks passed to Update since the last Init
    ghost var rest: Bytes    // and what followed them

    /** Everything passed to Update since the last Init. */
    ghost function Fed(): Bytes
      reads this
    {
      blocks + rest
    }

    ghost predicate CountValid()
      reads this
    {
      Counts(count0, count1, |Fed()|)
    }

    /** The state has absorbed the full blocks, and the buffer starts with the rest. */
    ghost predicate DataValid()
      reads this, state, buffer
    {
      && state.Length == 4 && buffer.Length == 64
      && |blocks| % 64 == 0 && |rest| < 64
      && QuadOf(state) == CHAIN(blocks)
      && buffer[..|rest|] == rest
    }

    ghost predicate Valid()
      reads this, state, buffer
    {
      CountValid() && DataValid()
    }

    constructor ()
      ensures Valid() && Fed() == [] && fresh(state) && fresh(buffer)
    {
      state := new Word[4](i => W(0));
      buffer := new byte[64](i => 0);
      new;
      Init();
    }

    /** A copy of another context, as C assigns the struct. */
    constructor CopyOf(other: Context)
      requires other.Valid()
      ensures Valid() && Fed() == other.Fed() && fresh(state) && fresh(buffer)
    {
      count0, count1, blocks, rest := other.count0, other.count1, other.blocks, other.rest;
      state := new Word[4](i requires 0 <= i < 4 reads other.state => other.state[i]);
      buffer := new byte[64](i requires 0 <= i < 64 reads other.buffer => other.buffer[i]);
      new;
      assert buffer[..] == other.buffer[..];
      assert buffer[..|rest|] == other.buffer[..|rest|];
    }

    method Init()
      requires state.Length == 4 && buffer.Length == 64
      modifies this, state
      ensures Valid() && Fed() == []
    {
      count0, count1, blocks, rest := 0, 0, [], [];
      assert CountsAt(0, 0, 0, 0);
      state[0], state[1], state[2], state[3] := INIT.a, INIT.b, INIT.c, INIT.d;
      ChainEmpty();
    }

    method Update(input: Bytes)
      requires Valid() && |input| < TWO_32 && CounterExact(|Fed()| % 64, |input|)
      modifies this, state, buffer
      ensures Valid() && Fed() == old(Fed()) + input
    {
      CountsIndex(count0, count1, |Fed()|);
      RestLength(|blocks|, |rest|);
      var index := count0 / 8 % 64;
      CountBits(|input|);
      Absorb(input, index);
    }

    method CountBits(inputlen: nat)
      requires CountValid() && inputlen < TWO_32
      modifies this`count0, this`count1
      ensures Counts(count0, count1, |Fed()| + inputlen)
    {
      CountStep(count0, count1, |Fed()|, inputlen);
      count0 := (count0 + 8 * inputlen % TWO_32) % TWO_32;
      if count0 < 8 * inputlen % TWO_32 {
        count1 := (count1 + 1) % TWO_32;
      }
      count1 := (count1 + inputlen / 0x2000_0000) % TWO_32;
    }

    /** The rest of MD5Update once the bits are counted: whole blocks if there are any, then the tail. */
    method Absorb(input: Bytes, start: nat)
      requires DataValid() && start == |rest|
      requires |input| < TWO_32 && CounterExact(start, |input|)
      modifies this`blocks, this`rest, state, buffer
      ensures DataValid() && Fed() == old(Fed()) + input
    {
      var index, i := start, 0;
      if |input| >= 64 - start {
        i := TakeWhole(input, start);
        index := 0;
      }
      Copy(buffer, index, input[i..]);
      rest := rest + input[i..];
      assert input[..i] + input[i..] == input;
    }

    /** Fills and takes the buffer, then the whole blocks of the input; i is the first byte left over. */
    method TakeWhole(input: Bytes, start: nat) returns (i: nat)
      requires DataValid() && start == |rest|
      requires 64 - start <= |input| < TWO_32 && CounterExact(start, |input|)
      modifies this`blocks, this`rest, state, buffer
      ensures DataValid() && rest == []
      ensures i <= |input| < i + 64 && blocks == old(Fed()) + input[..i]
    {
      var partlen := 64 - start;
      Copy(buffer, start, input[..partlen]);
      assert buffer[..] == rest + input[..partlen];
      TakeBlock(buffer[..]);
      i := TakeBlocks(input, start);
      rest := [];
    }

    method TakeBlock(block: Block)
      requires state.Length == 4 && |blocks| % 64 == 0 && QuadOf(state) == CHAIN(blocks)
      modifies this`blocks, state
      ensures |blocks| % 64 == 0 && QuadOf(state) == CHAIN(blocks)
      ensures blocks == old(blocks) + block
    {
      Transform(state, block);
      ChainNext(blocks, block);
      blocks := blocks + block;
    }

    /** The block loop of MD5Update, with its 32-bit guard. */
    method TakeBlocks(input: Bytes, start: nat) returns (i: nat)
      requires state.Length == 4 && |blocks| % 64 == 0 && QuadOf(state) == CHAIN(blocks)
      requires start < 64 && 64 - start <= |input| < TWO_32 && CounterExact(start, |input|)
      modifies this`blocks, state
      ensures 64 - start <= i <= |input| < i + 64
      ensures |blocks| % 64 == 0 && QuadOf(state) == CHAIN(blocks)
      ensures blocks == old(blocks) + input[64 - start..i]
    {
      ghost var exit := LoopExit(start, |input|);
      GuardIsExact(start, |input|);
      i := 64 - start;
      while (i + 64) % TWO_32 <= |input|
        invariant 64 - start <= i <= exit && (start + i) % 64 == 0
        invariant GuardHolds(i, |input|) <==> i < exit
        invariant |blocks| % 64 == 0 && QuadOf(state) == CHAIN(blocks)
        invariant blocks == old(blocks) + input[64 - start..i]
        decreases exit - i
      {
        assert i + 64 <= exit;
        TakeBlock(input[i..i + 64]);
        i := i + 64;
      }
    }

    /** Padding and length, appended through Update. */
    method AppendPadding()
      requires Valid()
      modifies this, state, buffer
      ensures Valid() && rest == [] && blocks == Pad(old(Fed()))
    {
      assert count0 < TWO_32 && count1 < TWO_32;
      hide WordOfInt, BytesOfWord, Encoded, Pad, LengthBytes, Zeros, Counts, CountsAt;
      ghost var m := Fed();
      CountsIndex(count0, count1, |m|);
      CountsLength(count0, count1, |m|);
      var index := count0 / 8 % 64;
      var padlen := if index < 56 then 56 - index else 120 - index;
      EncodedTwo(WORD(count0), WORD(count1));
      var bits := Encode([WORD(count0), WORD(count1)]);
      PaddingIsPad(m, padlen);
      SmallLengthsAreExact(|Fed()| % 64, padlen);
      Update(PADDING[..padlen]);
      SmallLengthsAreExact(|Fed()| % 64, 8);
      Update(bits);
      RestLength(|blocks|, |rest|);
      assert rest == [] && blocks == blocks + rest == Pad(m);
    }

    method Final() returns (digest: Bytes)
      requires Valid()
      modifies this, state, buffer
      ensures digest == Digest(old(Fed()))
    {
      hide Encoded, Pad;
      AppendPadding();
      EncodedFour(state[0], state[1], state[2], state[3]);
      digest := Encode([state[0], state[1], state[2], state[3]]);
    }
  }
}
