/** What the pieces of MD5 compute, apart from their formulas, and one digest worked out step by step. */
module Md5Laws {
  import opened Base
  import opened Blocks
  import opened Md5
  import opened Md5Context
  import opened Hasher

  // ---------- Words and bytes as numbers ----------

  /** Four digits to the base 256, the lowest first. */
  function LittleEndian(b: FourBytes): nat {
    b[0] as nat + 0x100 * b[1] as nat + 0x1_0000 * b[2] as nat + 0x100_0000 * b[3] as nat
  }

  /** The number a word stands for, and the word of a number; proofs below open them only where they must. */
  function Num(x: bv32): nat { x as nat }

  function ToWord(n: U32): bv32 { n as bv32 }

  lemma ThereAndBack(x: bv32)
    ensures Num(x) < TWO_32 && ToWord(Num(x)) == x
  {
  }

  lemma SameNumber(x: bv32, y: bv32)
    requires Num(x) == Num(y)
    ensures x == y
  {
    hide Num, ToWord;
    ThereAndBack(x);
    ThereAndBack(y);
  }

  lemma TopByte(x: bv32)
    ensures Num(x) == 0x100_0000 * Num((x >> 24) & 0xFF) + Num(x & 0xFF_FFFF)
  {
  }

  lemma ThirdByte(x: bv32)
    ensures Num(x & 0xFF_FFFF) == 0x1_0000 * Num((x >> 16) & 0xFF) + Num(x & 0xFFFF)
  {
  }

  lemma SecondByte(x: bv32)
    ensures Num(x & 0xFFFF) == 0x100 * Num((x >> 8) & 0xFF) + Num(x & 0xFF)
  {
  }

  lemma LowByteIs(x: bv32)
    ensures LowByte(x) as nat == Num(x & 0xFF)
  {
  }

  lemma EncodedIs(w: Word)
    ensures ENCODE(w) == [LowByte(w.v), LowByte(w.v >> 8), LowByte(w.v >> 16), LowByte(w.v >> 24)]
  {
    hide LowByte;
    assert ENCODE(w) == BytesOfWord(w);
  }

  /** A word is written as the digits of its number to the base 256, low-order first. */
  lemma EncodedValue(w: Word)
    ensures LittleEndian(ENCODE(w)) == Num(w.v)
  {
    hide Num, LowByte;
    TopByte(w.v);
    ThirdByte(w.v);
    SecondByte(w.v);
    LowByteIs(w.v);
    LowByteIs(w.v >> 8);
    LowByteIs(w.v >> 16);
    LowByteIs(w.v >> 24);
    EncodedIs(w);
  }

  lemma NibbleFits(n: nat)
    requires n < 16
    ensures (n as bv4) as nat == n
  {
  }

  lemma JoinedNibbles(h: bv4, l: bv4)
    ensures Num(((h as bv32) << 4) | l as bv32) == 16 * h as nat + l as nat
  {
  }

  lemma AsBitVector(b: nat) returns (c: bv32)
    requires b < 256
    ensures Num(c) == b
  {
    hide Num;
    var h, l := (b / 16) as bv4, (b % 16) as bv4;
    NibbleFits(b / 16);
    NibbleFits(b % 16);
    JoinedNibbles(h, l);
    c := ((h as bv32) << 4) | l as bv32;
  }

  lemma WidenedIs(b: byte)
    ensures Widened(b) == ToWord(b as nat)
  {
  }

  lemma SmallWord(x: bv32)
    requires Num(x) < 256
    ensures x <= 0xFF
  {
  }

  lemma WidenedValue(b: byte)
    ensures Num(Widened(b)) == b as nat && Widened(b) <= 0xFF
  {
    hide Num, ToWord, Widened;
    var c := AsBitVector(b as nat);
    ThereAndBack(c);
    WidenedIs(b);
    SmallWord(Widened(b));
  }

  lemma BytesOfJoined(p: bv32, q: bv32, r: bv32, s: bv32)
    requires p <= 0xFF && q <= 0xFF && r <= 0xFF && s <= 0xFF
    ensures var x := p | (q << 8) | (r << 16) | (s << 24);
            x & 0xFF == p && (x >> 8) & 0xFF == q && (x >> 16) & 0xFF == r && (x >> 24) & 0xFF == s
  {
  }

  /** Four bytes are read as the digits of a number, low-order first. */
  lemma DecodedValue(b: FourBytes)
    ensures Num(DECODE(b).v) == LittleEndian(b)
  {
    hide Num, Widened;
    WidenedValue(b[0]);
    WidenedValue(b[1]);
    WidenedValue(b[2]);
    WidenedValue(b[3]);
    BytesOfJoined(Widened(b[0]), Widened(b[1]), Widened(b[2]), Widened(b[3]));
    assert DECODE(b) == WordOfBytes(b);
    var x := DECODE(b).v;
    TopByte(x);
    ThirdByte(x);
    SecondByte(x);
  }

  function Digits(n: U32): FourBytes {
    [(n % 0x100) as byte, (n / 0x100 % 0x100) as byte, (n / 0x1_0000 % 0x100) as byte, (n / 0x100_0000) as byte]
  }

  lemma DigitsOf(b: FourBytes)
    ensures LittleEndian(b) < TWO_32 && Digits(LittleEndian(b)) == b
  {
    var n := LittleEndian(b);
    assert n % 0x100 == b[0] as nat && n / 0x100 == b[1] as nat + 0x100 * b[2] as nat + 0x1_0000 * b[3] as nat;
    assert n / 0x100 % 0x100 == b[1] as nat && n / 0x1_0000 == b[2] as nat + 0x100 * b[3] as nat;
    assert n / 0x1_0000 % 0x100 == b[2] as nat && n / 0x100_0000 == b[3] as nat;
  }

  /** Reading undoes writing, and writing reading. */
  lemma CodingInverts(w: Word, b: FourBytes)
    ensures DECODE(ENCODE(w)) == w && ENCODE(DECODE(b)) == b
  {
    EncodedValue(w);
    DecodedValue(ENCODE(w));
    SameNumber(DECODE(ENCODE(w)).v, w.v);
    DecodedValue(b);
    EncodedValue(DECODE(b));
    DigitsOf(ENCODE(DECODE(b)));
    DigitsOf(b);
    hide Digits, LittleEndian;
  }

  lemma DigitsAddUp(n: U32)
    ensures LittleEndian(Digits(n)) == n
  {
    assert n == 0x100 * (n / 0x100) + n % 0x100;
    assert n / 0x100 == 0x100 * (n / 0x1_0000) + n / 0x100 % 0x100;
    assert n / 0x1_0000 == 0x100 * (n / 0x100_0000) + n / 0x1_0000 % 0x100;
  }

  lemma WordIs(n: U32)
    ensures WORD(n) == W(ToWord(n))
  {
    assert WORD(n) == WordOfInt(n);
  }

  /** Every 32-bit number is the number of its word. */
  lemma WordValue(n: U32)
    ensures Num(WORD(n).v) == n
  {
    hide Num, ToWord, Digits;
    var x := DECODE(Digits(n)).v;
    DigitsAddUp(n);
    DecodedValue(Digits(n));
    ThereAndBack(x);
    WordIs(n);
  }

  /** The eight bytes behind the padding are the length in bits modulo 2^64, low-order byte first. */
  lemma LengthValue(n: nat)
    ensures LittleEndian(LengthBytes(n)[..4]) + TWO_32 * LittleEndian(LengthBytes(n)[4..]) == 8 * n % TWO_64
  {
    hide Num, LittleEndian;
    var low, high := 8 * n % TWO_32, 8 * n / TWO_32 % TWO_32;
    WordValue(low);
    WordValue(high);
    EncodedValue(WORD(low));
    EncodedValue(WORD(high));
    assert LengthBytes(n)[..4] == ENCODE(WORD(low)) && LengthBytes(n)[4..] == ENCODE(WORD(high));
    TwoWords(8 * n);
  }

  lemma TwoWords(n: nat)
    ensures n % TWO_32 + TWO_32 * (n / TWO_32 % TWO_32) == n % TWO_64
  {
    var q := n / TWO_32;
    assert n == TWO_32 * q + n % TWO_32 && q == TWO_32 * (q / TWO_32) + q % TWO_32;
    assert n == TWO_64 * (q / TWO_32) + (TWO_32 * (q % TWO_32) + n % TWO_32);
  }

  /** Section 3.3 of RFC 1321 gives the initial words by their bytes, low-order first. */
  lemma InitialWords()
    ensures Output(INIT) == [0x01, 0x23, 0x45, 0x67, 0x89, 0xab, 0xcd, 0xef,
                             0xfe, 0xdc, 0xba, 0x98, 0x76, 0x54, 0x32, 0x10]
  {
    assert ENCODE(INIT.a) == BytesOfWord(INIT.a) && ENCODE(INIT.b) == BytesOfWord(INIT.b);
    assert ENCODE(INIT.c) == BytesOfWord(INIT.c) && ENCODE(INIT.d) == BytesOfWord(INIT.d);
  }

  // ---------- The rotation ----------

  const ALL_ONES: nat := TWO_32 - 1

  lemma TopBit(x: bv32)
    ensures Num(x) == 0x8000_0000 * Num(x >> 31) + Num(x & 0x7FFF_FFFF)
  {
  }

  lemma Twice(y: bv32)
    requires y <= 0x7FFF_FFFF
    ensures Num((y << 1) | 0) == 2 * Num(y) && Num((y << 1) | 1) == 2 * Num(y) + 1
    ensures Num(0) == 0 && Num(1) == 1
  {
  }

  lemma SplitInTwo(x: bv32)
    ensures x & 0x7FFF_FFFF <= 0x7FFF_FFFF && (x >> 31 == 0 || x >> 31 == 1)
  {
  }

  lemma RotatedOnce(x: bv32)
    ensures RotateLeft(x, 1) == ((x & 0x7FFF_FFFF) << 1) | (x >> 31)
  {
  }

  /** Rotating by one place doubles a number, less 2^32 - 1 if the top bit is set. */
  lemma RotateOnce(x: bv32)
    ensures Num(RotateLeft(x, 1)) == 2 * Num(x) - ALL_ONES * Num(x >> 31)
  {
    hide Num, RotateLeft;
    RotatedOnce(x);
    SplitInTwo(x);
    TopBit(x);
    Twice(x & 0x7FFF_FFFF);
  }

  // The two halves of a rotation by name, so that OneMore works on their equations alone.
  function Up(x: bv32, n: bv6): bv32 { if n < 32 then x << n else 0 }
  function Down(x: bv32, n: bv6): bv32 { if 0 < n < 32 then x >> (32 - n) else 0 }

  // One place further, the upper half moves up, the lower one gains a bit, and that is the top bit of the upper half.
  predicate MovedUp(a: bv32, a1: bv32) { a << 1 == a1 }
  predicate MovedDown(b: bv32, b1: bv32) { b1 >> 1 == b }
  predicate MovedOver(a: bv32, b: bv32, b1: bv32) { b >> 31 == 0 && a >> 31 == b1 & 1 }
  predicate IsJoined(r: bv32, a: bv32, b: bv32) { r == a | b }

  lemma UpperMoves(x: bv32, n: ShiftCount)
    requires n < 31
    ensures MovedUp(Up(x, n), Up(x, n + 1))
  {
  }

  lemma LowerMoves(x: bv32, n: ShiftCount)
    requires n < 31
    ensures MovedDown(Down(x, n), Down(x, n + 1))
  {
  }

  lemma BitMovesOver(x: bv32, n: ShiftCount)
    requires n < 31
    ensures MovedOver(Up(x, n), Down(x, n), Down(x, n + 1))
  {
  }

  lemma HalvesJoin(x: bv32, n: ShiftCount)
    ensures IsJoined(RotateLeft(x, n), Up(x, n), Down(x, n))
  {
  }

  lemma JoinedOnce(r: bv32, r1: bv32, a: bv32, b: bv32, a1: bv32, b1: bv32)
    requires IsJoined(r, a, b) && IsJoined(r1, a1, b1)
    requires MovedUp(a, a1) && MovedDown(b, b1) && MovedOver(a, b, b1)
    ensures r1 == RotateLeft(r, 1)
  {
  }

  lemma OneMore(x: bv32, n: ShiftCount)
    requires n < 31
    ensures RotateLeft(x, n + 1) == RotateLeft(RotateLeft(x, n), 1)
  {
    hide Up, Down, RotateLeft, MovedUp, MovedDown, MovedOver, IsJoined;
    HalvesJoin(x, n);
    HalvesJoin(x, n + 1);
    UpperMoves(x, n);
    LowerMoves(x, n);
    BitMovesOver(x, n);
    JoinedOnce(RotateLeft(x, n), RotateLeft(x, n + 1), Up(x, n), Down(x, n), Up(x, n + 1), Down(x, n + 1));
  }

  /** x times 2^n. */
  function Doubled(x: nat, n: nat): nat { if n == 0 then x else 2 * Doubled(x, n - 1) }

  lemma SameModulo(z: int, y: nat)
    ensures (ALL_ONES * z + y) % ALL_ONES == y % ALL_ONES
  {
    assert ALL_ONES * z + y == ALL_ONES * (z + y / ALL_ONES) + y % ALL_ONES;
  }

  lemma TwiceModulo(a: nat, b: nat, r: nat, t: nat)
    requires a % ALL_ONES == b % ALL_ONES && r == 2 * a - ALL_ONES * t
    ensures r % ALL_ONES == 2 * b % ALL_ONES
  {
    var p, q, k := a / ALL_ONES, b / ALL_ONES, a % ALL_ONES;
    assert r == ALL_ONES * (2 * p - t) + 2 * k && 2 * b == ALL_ONES * (2 * q) + 2 * k;
    SameModulo(2 * p - t, 2 * k);
    SameModulo(2 * q, 2 * k);
  }

  function Places(n: ShiftCount): nat { n as nat }

  lemma OneLess(n: ShiftCount)
    ensures if n == 1 then Places(n) == 1 else Places(n) == Places(n - 1) + 1 && n - 1 + 1 == n && n - 1 < 31
  {
  }

  /** Rotating by n places is multiplying by 2^n modulo 2^32 - 1. */
  lemma {:induction false} RotationValue(x: bv32, n: ShiftCount)
    ensures Num(RotateLeft(x, n)) % ALL_ONES == Doubled(Num(x), Places(n)) % ALL_ONES
    ensures RotateLeft(x, n) == 0 <==> x == 0
    decreases Places(n)
  {
    hide Num, RotateLeft, Places;
    OneLess(n);
    if n == 1 {
      RotateOnce(x);
      TwiceModulo(Num(x), Num(x), Num(RotateLeft(x, 1)), Num(x >> 31));
      RotateZero(x);
    } else {
      var m, y := n - 1, RotateLeft(x, n - 1);
      RotationValue(x, m);
      OneMore(x, m);
      RotateOnce(y);
      TwiceModulo(Num(y), Doubled(Num(x), Places(m)), Num(RotateLeft(y, 1)), Num(y >> 31));
      RotateZero(y);
    }
  }

  lemma RotateZero(x: bv32)
    ensures RotateLeft(x, 1) == 0 <==> x == 0
  {
  }

  // ---------- A digest from the test suite of RFC 1321, section A.5 ----------

  /** The words of "message digest", padded: the text, 0x80, and the length of 112 bits. */
  predicate IsSample(x: MessageWords) {
    && x[0] == W(0x7373656d) && x[1] == W(0x20656761) && x[2] == W(0x65676964)
    && x[3] == W(0x00807473) && x[14] == W(0x00000070)
    && forall i | 4 <= i < 16 && i != 14 :: x[i] == W(0)
  }

  /** What one step makes of the word a. */
  predicate Gives(f: StepMacro, a: bv32, b: bv32, c: bv32, d: bv32, x: bv32, s: ShiftCount, t: bv32, r: bv32) {
    f(W(a), W(b), W(c), W(d), W(x), s, W(t)) == W(r)
  }

  lemma SampleSteps1()
    ensures Gives(FF, 0x67452301, 0xefcdab89, 0x98badcfe, 0x10325476, 0x7373656d, 7, 0xd76aa478, 0x5ed29dae)
    ensures Gives(FF, 0x10325476, 0x5ed29dae, 0xefcdab89, 0x98badcfe, 0x20656761, 12, 0xe8c7b756, 0xe2a2fc32)
    ensures Gives(FF, 0x98badcfe, 0xe2a2fc32, 0x5ed29dae, 0xefcdab89, 0x65676964, 17, 0x242070db, 0x9073e056)
    ensures Gives(FF, 0xefcdab89, 0x9073e056, 0xe2a2fc32, 0x5ed29dae, 0x00807473, 22, 0xc1bdceee, 0xb9940c11)
    ensures Gives(FF, 0x5ed29dae, 0xb9940c11, 0x9073e056, 0xe2a2fc32, 0, 7, 0xf57c0faf, 0xfa62d3a4)
    ensures Gives(FF, 0xe2a2fc32, 0xfa62d3a4, 0xb9940c11, 0x9073e056, 0, 12, 0x4787c62a, 0xb88dc1c7)
    ensures Gives(FF, 0x9073e056, 0xb88dc1c7, 0xfa62d3a4, 0xb9940c11, 0, 17, 0xa8304613, 0xa089a530)
    ensures Gives(FF, 0xb9940c11, 0xa089a530, 0xb88dc1c7, 0xfa62d3a4, 0, 22, 0xfd469501, 0xc63616cd)
    ensures Gives(FF, 0xfa62d3a4, 0xc63616cd, 0xa089a530, 0xb88dc1c7, 0, 7, 0x698098d8, 0xfcced5db)
    ensures Gives(FF, 0xb88dc1c7, 0xfcced5db, 0xc63616cd, 0xa089a530, 0, 12, 0x8b44f7af, 0x9bb4c658)
    ensures Gives(FF, 0xa089a530, 0x9bb4c658, 0xfcced5db, 0xc63616cd, 0, 17, 0xffff5bb1, 0x4731c077)
    ensures Gives(FF, 0xc63616cd, 0x4731c077, 0x9bb4c658, 0xfcced5db, 0, 22, 0x895cd7be, 0x5ff4a4e8)
    ensures Gives(FF, 0xfcced5db, 0x5ff4a4e8, 0x4731c077, 0x9bb4c658, 0, 7, 0x6b901122, 0x27c95b7f)
    ensures Gives(FF, 0x9bb4c658, 0x27c95b7f, 0x5ff4a4e8, 0x4731c077, 0, 12, 0xfd987193, 0x034e9992)
    ensures Gives(FF, 0x4731c077, 0x034e9992, 0x27c95b7f, 0x5ff4a4e8, 0x00000070, 17, 0xa679438e, 0x872d34d8)
    ensures Gives(FF, 0x5ff4a4e8, 0x872d34d8, 0x034e9992, 0x27c95b7f, 0, 22, 0x49b40821, 0xb760921a)
  {
  }

  lemma SampleRound1(x: MessageWords)
    requires IsSample(x)
    ensures Steps(0, Quad(W(0x67452301), W(0xefcdab89), W(0x98badcfe), W(0x10325476)), x, 16)
            == Quad(W(0x27c95b7f), W(0xb760921a), W(0x872d34d8), W(0x034e9992))
  {
    hide StepF, StepG, StepH, StepI;
    SampleSteps1();
    var q := Quad(W(0x67452301), W(0xefcdab89), W(0x98badcfe), W(0x10325476));
    assert Steps(0, q, x, 8) == Quad(W(0xfa62d3a4), W(0xc63616cd), W(0xa089a530), W(0xb88dc1c7));
  }

  lemma SampleSteps2()
    ensures Gives(GG, 0x27c95b7f, 0xb760921a, 0x872d34d8, 0x034e9992, 0x20656761, 5, 0xf61e2562, 0x6d3425b2)
    ensures Gives(GG, 0x034e9992, 0x6d3425b2, 0xb760921a, 0x872d34d8, 0, 9, 0xc040b340, 0x551aefa3)
    ensures Gives(GG, 0x872d34d8, 0x551aefa3, 0x6d3425b2, 0xb760921a, 0, 14, 0x265e5a51, 0x62cdb24b)
    ensures Gives(GG, 0xb760921a, 0x62cdb24b, 0x551aefa3, 0x6d3425b2, 0x7373656d, 20, 0xe9b6c7aa, 0xf615fbe5)
    ensures Gives(GG, 0x6d3425b2, 0xf615fbe5, 0x62cdb24b, 0x551aefa3, 0, 5, 0xd62f105d, 0x3d3c3afc)
    ensures Gives(GG, 0x551aefa3, 0x3d3c3afc, 0xf615fbe5, 0x62cdb24b, 0, 9, 0x02441453, 0x343bff12)
    ensures Gives(GG, 0x62cdb24b, 0x343bff12, 0x3d3c3afc, 0xf615fbe5, 0, 14, 0xd8a1e681, 0x99351d3c)
    ensures Gives(GG, 0xf615fbe5, 0x99351d3c, 0x343bff12, 0x3d3c3afc, 0, 20, 0xe7d3fbc8, 0xe7f48f59)
    ensures Gives(GG, 0x3d3c3afc, 0xe7f48f59, 0x99351d3c, 0x343bff12, 0, 5, 0x21e1cde6, 0x7247931a)
    ensures Gives(GG, 0x343bff12, 0x7247931a, 0xe7f48f59, 0x99351d3c, 0x00000070, 9, 0xc33707d6, 0xe37cf5f6)
    ensures Gives(GG, 0x99351d3c, 0xe37cf5f6, 0x7247931a, 0xe7f48f59, 0x00807473, 14, 0xf4d50d87, 0x709f1676)
    ensures Gives(GG, 0xe7f48f59, 0x709f1676, 0xe37cf5f6, 0x7247931a, 0, 20, 0x455a14ed, 0x2460ff57)
    ensures Gives(GG, 0x7247931a, 0x2460ff57, 0x709f1676, 0xe37cf5f6, 0, 5, 0xa9e3e905, 0xc64f6e00)
    ensures Gives(GG, 0xe37cf5f6, 0xc64f6e00, 0x2460ff57, 0x709f1676, 0x65676964, 9, 0xfcefa3f8, 0x4e341514)
    ensures Gives(GG, 0x709f1676, 0x4e341514, 0xc64f6e00, 0x2460ff57, 0, 14, 0x676f02d9, 0x99ccfca3)
    ensures Gives(GG, 0x2460ff57, 0x99ccfca3, 0x4e341514, 0xc64f6e00, 0, 20, 0x8d2a4c8a, 0x29209d1f)
  {
  }

  lemma SampleRound2(x: MessageWords)
    requires IsSample(x)
    ensures Steps(1, Quad(W(0x27c95b7f), W(0xb760921a), W(0x872d34d8), W(0x034e9992)), x, 16)
            == Quad(W(0xc64f6e00), W(0x29209d1f), W(0x99ccfca3), W(0x4e341514))
  {
    hide StepF, StepG, StepH, StepI;
    SampleSteps2();
    var q := Quad(W(0x27c95b7f), W(0xb760921a), W(0x872d34d8), W(0x034e9992));
    assert Steps(1, q, x, 8) == Quad(W(0x3d3c3afc), W(0xe7f48f59), W(0x99351d3c), W(0x343bff12));
  }

  lemma SampleSteps3()
    ensures Gives(HH, 0xc64f6e00, 0x29209d1f, 0x99ccfca3, 0x4e341514, 0, 4, 0xfffa3942, 0x7b425bcb)
    ensures Gives(HH, 0x4e341514, 0x7b425bcb, 0x29209d1f, 0x99ccfca3, 0, 11, 0x8771f681, 0x1d72c0d5)
    ensures Gives(HH, 0x99ccfca3, 0x1d72c0d5, 0x7b425bcb, 0x29209d1f, 0, 16, 0x6d9d6122, 0x8139174f)
    ensures Gives(HH, 0x29209d1f, 0x8139174f, 0x1d72c0d5, 0x7b425bcb, 0x00000070, 23, 0xfde5380c, 0x77401eff)
    ensures Gives(HH, 0x7b425bcb, 0x77401eff, 0x8139174f, 0x1d72c0d5, 0x20656761, 4, 0xa4beea44, 0x2e678c51)
    ensures Gives(HH, 0x1d72c0d5, 0x2e678c51, 0x77401eff, 0x8139174f, 0, 11, 0x4bdecfa9, 0xaf1a865c)
    ensures Gives(HH, 0x8139174f, 0xaf1a865c, 0x2e678c51, 0x77401eff, 0, 16, 0xf6bb4b60, 0x26bbf48d)
    ensures Gives(HH, 0x77401eff, 0x26bbf48d, 0xaf1a865c, 0x2e678c51, 0, 23, 0xbebfbc70, 0x1eaad7f9)
    ensures Gives(HH, 0x2e678c51, 0x1eaad7f9, 0x26bbf48d, 0xaf1a865c, 0, 4, 0x289b7ec6, 0xff95dbf7)
    ensures Gives(HH, 0xaf1a865c, 0xff95dbf7, 0x1eaad7f9, 0x26bbf48d, 0x7373656d, 11, 0xeaa127fa, 0x9ff8129c)
    ensures Gives(HH, 0x26bbf48d, 0x9ff8129c, 0xff95dbf7, 0x1eaad7f9, 0x00807473, 16, 0xd4ef3085, 0x580f8d8e)
    ensures Gives(HH, 0x1eaad7f9, 0x580f8d8e, 0x9ff8129c, 0xff95dbf7, 0, 23, 0x04881d05, 0x49bd582a)
    ensures Gives(HH, 0xff95dbf7, 0x49bd582a, 0x580f8d8e, 0x9ff8129c, 0, 4, 0xd9d4d039, 0xc5148eb0)
    ensures Gives(HH, 0x9ff8129c, 0xc5148eb0, 0x49bd582a, 0x580f8d8e, 0, 11, 0xe6db99e5, 0x9551398b)
    ensures Gives(HH, 0x580f8d8e, 0x9551398b, 0xc5148eb0, 0x49bd582a, 0, 16, 0x1fa27cf8, 0x8ee8cb35)
    ensures Gives(HH, 0x49bd582a, 0x8ee8cb35, 0x9551398b, 0xc5148eb0, 0x65676964, 23, 0xc4ac5665, 0x8f920a7f)
  {
  }

  lemma SampleRound3(x: MessageWords)
    requires IsSample(x)
    ensures Steps(2, Quad(W(0xc64f6e00), W(0x29209d1f), W(0x99ccfca3), W(0x4e341514)), x, 16)
            == Quad(W(0xc5148eb0), W(0x8f920a7f), W(0x8ee8cb35), W(0x9551398b))
  {
    hide StepF, StepG, StepH, StepI;
    SampleSteps3();
    var q := Quad(W(0xc64f6e00), W(0x29209d1f), W(0x99ccfca3), W(0x4e341514));
    assert Steps(2, q, x, 8) == Quad(W(0x2e678c51), W(0x1eaad7f9), W(0x26bbf48d), W(0xaf1a865c));
  }

  lemma SampleSteps4()
    ensures Gives(II, 0xc5148eb0, 0x8f920a7f, 0x8ee8cb35, 0x9551398b, 0x7373656d, 6, 0xf4292244, 0x1158f562)
    ensures Gives(II, 0x9551398b, 0x1158f562, 0x8f920a7f, 0x8ee8cb35, 0, 10, 0x432aff97, 0x3a3bd4bf)
    ensures Gives(II, 0x8ee8cb35, 0x3a3bd4bf, 0x1158f562, 0x8f920a7f, 0x00000070, 15, 0xab9423a7, 0x3250a790)
    ensures Gives(II, 0x8f920a7f, 0x3250a790, 0x3a3bd4bf, 0x1158f562, 0, 21, 0xfc93a039, 0xed9ac5d4)
    ensures Gives(II, 0x1158f562, 0xed9ac5d4, 0x3250a790, 0x3a3bd4bf, 0, 6, 0x655b59c3, 0x7e40a029)
    ensures Gives(II, 0x3a3bd4bf, 0x7e40a029, 0xed9ac5d4, 0x3250a790, 0x00807473, 10, 0x8f0ccc92, 0x778e9f99)
    ensures Gives(II, 0x3250a790, 0x778e9f99, 0x7e40a029, 0xed9ac5d4, 0, 15, 0xffeff47d, 0x555e3d90)
    ensures Gives(II, 0xed9ac5d4, 0x555e3d90, 0x778e9f99, 0x7e40a029, 0x20656761, 21, 0x85845dd1, 0xc004fc5d)
    ensures Gives(II, 0x7e40a029, 0xc004fc5d, 0x555e3d90, 0x778e9f99, 0, 6, 0x6fa87e4f, 0x853d163f)
    ensures Gives(II, 0x778e9f99, 0x853d163f, 0xc004fc5d, 0x555e3d90, 0, 10, 0xfe2ce6e0, 0x57ff85d4)
    ensures Gives(II, 0x555e3d90, 0x57ff85d4, 0x853d163f, 0xc004fc5d, 0, 15, 0xa3014314, 0x61367f65)
    ensures Gives(II, 0xc004fc5d, 0x61367f65, 0x57ff85d4, 0x853d163f, 0, 21, 0x4e0811a1, 0x671dc236)
    ensures Gives(II, 0x853d163f, 0x671dc236, 0x61367f65, 0x57ff85d4, 0, 6, 0xf7537e82, 0x162448f8)
    ensures Gives(II, 0x57ff85d4, 0x162448f8, 0x671dc236, 0x61367f65, 0, 10, 0xbd3af235, 0xc02f9d34)
    ensures Gives(II, 0x61367f65, 0xc02f9d34, 0x162448f8, 0x671dc236, 0x65676964, 15, 0x2ad7d2bb, 0x98747d54)
    ensures Gives(II, 0x671dc236, 0x98747d54, 0xc02f9d34, 0x162448f8, 0, 21, 0xeb86d391, 0x9dc60bf3)
  {
  }

  lemma SampleRound4(x: MessageWords)
    requires IsSample(x)
    ensures Steps(3, Quad(W(0xc5148eb0), W(0x8f920a7f), W(0x8ee8cb35), W(0x9551398b)), x, 16)
            == Quad(W(0x162448f8), W(0x9dc60bf3), W(0x98747d54), W(0xc02f9d34))
  {
    hide StepF, StepG, StepH, StepI;
    SampleSteps4();
    var q := Quad(W(0xc5148eb0), W(0x8f920a7f), W(0x8ee8cb35), W(0x9551398b));
    assert Steps(3, q, x, 8) == Quad(W(0x7e40a029), W(0xc004fc5d), W(0x555e3d90), W(0x778e9f99));
  }

  lemma SampleRounds(x: MessageWords)
    requires IsSample(x)
    ensures ROUNDS(INIT, x) == Quad(W(0x162448f8), W(0x9dc60bf3), W(0x98747d54), W(0xc02f9d34))
  {
    hide Steps;
    SampleRound1(x);
    SampleRound2(x);
    SampleRound3(x);
    SampleRound4(x);
    assert ROUNDS(INIT, x) == AllRounds(INIT, x);
  }

  /** The sample's first 14 bytes. */
  const SAMPLE: Bytes := [0x6d, 0x65, 0x73, 0x73, 0x61, 0x67, 0x65, 0x20, 0x64, 0x69, 0x67, 0x65, 0x73, 0x74]

  lemma SampleLength()
    ensures LengthBytes(14) == [112, 0, 0, 0, 0, 0, 0, 0]
  {
    EncodedIs(WORD(112));
    EncodedIs(WORD(0));
  }

  lemma SamplePadded()
    ensures var p := Pad(SAMPLE);
            && |p| == 64
            && p[0..4] == [0x6d, 0x65, 0x73, 0x73]
            && p[4..8] == [0x61, 0x67, 0x65, 0x20]
            && p[8..12] == [0x64, 0x69, 0x67, 0x65]
            && p[12..16] == [0x73, 0x74, 0x80, 0x00]
            && p[56] == 112 && forall k | 15 <= k < 64 && k != 56 :: p[k] == 0
  {
    SampleLength();
    hide LengthBytes;
  }

  lemma SampleWords()
    ensures |Pad(SAMPLE)| == 64 && IsSample(Words(Pad(SAMPLE)))
  {
    hide Pad;
    SamplePadded();
    SampleDecoded();
    var p := Pad(SAMPLE);
    assert p[56..60] == [112, 0, 0, 0];
    forall i | 4 <= i < 16 && i != 14
      ensures p[4 * i..4 * i + 4] == [0, 0, 0, 0]
    {
      assert p[4 * i] == 0 && p[4 * i + 1] == 0 && p[4 * i + 2] == 0 && p[4 * i + 3] == 0;
    }
  }

  lemma DecodedIs(b: FourBytes, x: bv32)
    requires Num(x) == LittleEndian(b)
    ensures DECODE(b) == W(x)
  {
    hide Num;
    DecodedValue(b);
    SameNumber(DECODE(b).v, x);
  }

  lemma SampleDecoded()
    ensures DECODE([0x6d, 0x65, 0x73, 0x73]) == W(0x7373656d) && DECODE([0x61, 0x67, 0x65, 0x20]) == W(0x20656761)
    ensures DECODE([0x64, 0x69, 0x67, 0x65]) == W(0x65676964) && DECODE([0x73, 0x74, 0x80, 0x00]) == W(0x00807473)
    ensures DECODE([112, 0, 0, 0]) == W(0x70) && DECODE([0, 0, 0, 0]) == W(0)
  {
    DecodedIs([0x6d, 0x65, 0x73, 0x73], 0x7373656d);
    DecodedIs([0x61, 0x67, 0x65, 0x20], 0x20656761);
    DecodedIs([0x64, 0x69, 0x67, 0x65], 0x65676964);
    DecodedIs([0x73, 0x74, 0x80, 0x00], 0x00807473);
    DecodedIs([112, 0, 0, 0], 0x70);
    DecodedIs([0, 0, 0, 0], 0);
  }

  lemma SampleSums()
    ensures Added(INIT, Quad(W(0x162448f8), W(0x9dc60bf3), W(0x98747d54), W(0xc02f9d34)))
            == Quad(W(0x7d696bf9), W(0x8d93b77c), W(0x312f5a52), W(0xd061f1aa))
  {
  }

  lemma SampleOutput()
    ensures Output(Quad(W(0x7d696bf9), W(0x8d93b77c), W(0x312f5a52), W(0xd061f1aa)))
            == [0xf9, 0x6b, 0x69, 0x7d, 0x7c, 0xb7, 0x93, 0x8d, 0x52, 0x5a, 0x2f, 0x31, 0xaa, 0xf1, 0x61, 0xd0]
  {
  }

  /** The MD5 digest of "message digest". */
  lemma SampleDigest()
    ensures Digest(SAMPLE)
            == [0xf9, 0x6b, 0x69, 0x7d, 0x7c, 0xb7, 0x93, 0x8d, 0x52, 0x5a, 0x2f, 0x31, 0xaa, 0xf1, 0x61, 0xd0]
  {
    hide Words, ROUNDS, Added;
    var p := Pad(SAMPLE);
    SampleWords();
    SampleRounds(Words(p));
    SampleSums();
    SampleOutput();
    assert p[..Consumed(|p|)] == p && p[..64] == p && p[64..] == [];
    assert COMPRESS(INIT, p) == CompressBlock(INIT, p);
    assert CHAIN(p) == ChainOf(p);
  }

  /** What the system's hasher prints for it. */
  lemma SampleHex()
    ensures MD5HEX(Text("message digest"))
            == Hex([0xf9, 0x6b, 0x69, 0x7d, 0x7c, 0xb7, 0x93, 0x8d, 0x52, 0x5a, 0x2f, 0x31, 0xaa, 0xf1, 0x61, 0xd0])
  {
    hide Digest, Text, Hex;
    SampleText();
    SampleDigest();
    HexExists();
    assert MD5HEX(SAMPLE) == HexDigest(SAMPLE);
  }

  lemma SampleText()
    ensures Text("message digest") == SAMPLE
  {
  }
}
