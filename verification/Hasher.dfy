/** Md5Hasher: the streaming hash the chunker, the reader and the writer share. */
module Hasher {
  import opened Base
  import opened Md5
  import opened Md5Context

  function HexDigit(n: nat): byte
    requires n < 16
  {
    if n < 10 then (48 + n) as byte else (87 + n) as byte
  }

  const HEX_DIGITS: Str := Text("0123456789abcdef")

  lemma HexDigitIs(n: nat)
    requires n < 16
    ensures HexDigit(n) == HEX_DIGITS[n]
  {
  }

  /** "%02x" of every byte. */
  function Hex(d: Bytes): (s: Str)
    ensures |s| == 2 * |d|
  {
    if d == [] then []
    else [HexDigit(d[0] as nat / 16), HexDigit(d[0] as nat % 16)] + Hex(d[1..])
  }

  lemma {:induction false} HexSnoc(d: Bytes, b: byte)
    ensures Hex(d + [b]) == Hex(d) + [HexDigit(b as nat / 16), HexDigit(b as nat % 16)]
  {
    if d == [] {
      assert [b][1..] == [] && d + [b] == [b];
    } else {
      assert (d + [b])[1..] == d[1..] + [b];
      HexSnoc(d[1..], b);
    }
  }

  /** Character k of the text is the hexadecimal digit for the high half of a byte if k is even, else for the low half. */
  lemma {:induction false} HexAt(d: Bytes, k: nat)
    requires k < 2 * |d|
    ensures Hex(d)[k] == HEX_DIGITS[if k % 2 == 0 then d[k / 2] as nat / 16 else d[k / 2] as nat % 16]
  {
    if k < 2 {
      HexDigitIs(d[0] as nat / 16);
      HexDigitIs(d[0] as nat % 16);
    } else {
      HexAt(d[1..], k - 2);
      assert Hex(d)[2..] == Hex(d[1..]);
    }
  }

  /** Distinct digests print as distinct strings. */
  lemma {:induction false} HexInjective(d: Bytes, e: Bytes)
    requires |d| == |e| && Hex(d) == Hex(e)
    ensures d == e
  {
    if d != [] {
      assert Hex(d)[2..] == Hex(d[1..]) && Hex(e)[2..] == Hex(e[1..]);
      assert Hex(d)[0] == Hex(e)[0] && Hex(d)[1] == Hex(e)[1];
      assert d[0] as nat == 16 * (d[0] as nat / 16) + d[0] as nat % 16;
      assert d[0] == e[0];
      HexInjective(d[1..], e[1..]);
    }
  }

  /** The 32 characters Md5Hasher gives for a message. */
  ghost function HexDigest(m: Bytes): (s: Str)
    ensures |s| == 32
  {
    Hex(Digest(m))
  }

  ghost predicate IsMd5Hex(h: Bytes -> Str) {
    forall m {:trigger HexDigest(m)} :: h(m) == HexDigest(m)
  }

  lemma HexExists()
    ensures exists h: Bytes -> Str :: IsMd5Hex(h)
  {
    hide HexDigest;
    var h: Bytes -> Str := m => HexDigest(m);
    assert IsMd5Hex(h);
  }

  /** HexDigest as a value whose definition opens only where HexDigest itself is named. */
  ghost const MD5HEX: Bytes -> Str := (HexExists(); var h :| IsMd5Hex(h); h)

  lemma Md5HexLength(m: Bytes)
    ensures |MD5HEX(m)| == 32
  {
    HexExists();
    assert MD5HEX(m) == HexDigest(m);
  }

  /** The lengths for which MD5Update's 32-bit length and loop counter are exact, whatever is buffered. */
  predicate Hashable(n: nat) {
    n < TWO_32 - 64
  }

  class Md5Hasher {
    const ctx: Context

    ghost function Repr(): set<object>
      reads this, ctx
    {
      {this, ctx, ctx.state, ctx.buffer}
    }

    ghost predicate Valid()
      reads this, ctx, ctx.state, ctx.buffer
    {
      ctx.Valid()
    }

    /** The bytes hashed since the last Reset. */
    ghost function Fed(): Bytes
      reads this, ctx
    {
      ctx.Fed()
    }

    constructor ()
      ensures Valid() && Fed() == [] && fresh(Repr())
    {
      ctx := new Context();
    }

    method Reset()
      requires Valid()
      modifies ctx, ctx.state
      ensures Valid() && Fed() == []
    {
      ctx.Init();
    }

    /** The size reaches MD5Update as an `unsigned int`: only that many bytes are hashed. */
    method Update(data: Bytes)
      requires Valid() && CounterExact(|Fed()| % 64, |data| % TWO_32)
      modifies ctx, ctx.state, ctx.buffer
      ensures Valid() && Fed() == old(Fed()) + data[..|data| % TWO_32]
    {
      ctx.Update(data[..|data| % TWO_32]);
    }

    /** Update for the sizes that the cast and the counter keep. */
    method UpdateAll(data: Bytes)
      requires Valid() && Hashable(|data|)
      modifies ctx, ctx.state, ctx.buffer
      ensures Valid() && Fed() == old(Fed()) + data
    {
      hide CounterExact;
      SmallLengthsAreExact(|Fed()| % 64, |data|);
      Update(data);
      assert data[..|data| % TWO_32] == data;
    }

    /** Works on a copy of the context, so hashing can go on afterwards. */
    method FinalHex() returns (hex: Str)
      requires Valid()
      ensures hex == MD5HEX(Fed())
    {
      var copy := new Context.CopyOf(ctx);
      var digest := copy.Final();
      hex := ToHex(digest);
      assert MD5HEX(Fed()) == HexDigest(Fed());
    }
  }

  method ToHex(digest: Bytes) returns (hex: Str)
    ensures hex == Hex(digest)
  {
    hex := [];
    for i := 0 to |digest|
      invariant hex == Hex(digest[..i])
    {
      HexSnoc(digest[..i], digest[i]);
      assert digest[..i] + [digest[i]] == digest[..i + 1];
      hex := hex + [HexDigit(digest[i] as nat / 16), HexDigit(digest[i] as nat % 16)];
    }
    assert digest[..|digest|] == digest;
  }
}
