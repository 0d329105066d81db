/** MD5: the incremental context of src/common/md5.c, and RFC 1321 as its specification. */
module Md5 {
  import opened Base
  import opened Blocks

  /** A shift count: wide enough for 32, which the rotation subtracts it from. */
  type ShiftCount = n: bv6 | 0 < n < 32 witness 1
  type U32 = x: nat | x < TWO_32
  type FourBytes = b: Bytes | |b| == 4 witness [0, 0, 0, 0]

  /** A 32-bit word. The wrapper keeps words abstract wherever only their identity matters. */
  datatype Word = W(v: bv32)

  /** The four chaining words A, B, C, D. */
  datatype Quad = Quad(a: Word, b: Word, c: Word, d: Word)

  const INIT := Quad(W(0x67452301), W(0xEFCDAB89), W(0x98BADCFE), W(0x10325476))

  // ---------- The bitwise functions and the step macros of md5.h ----------

  /** Where x is one, y; elsewhere z. */
  function F(x: bv32, y: bv32, z: bv32): (r: bv32)
    ensures r & x == y & x && r & !x == z & !x
  {
    (x & y) | (!x & z)
  }

  /** Where z is one, x; elsewhere y. */
  function G(x: bv32, y: bv32, z: bv32): (r: bv32)
    ensures r & z == x & z && r & !z == y & !z
  {
    (x & z) | (y & !z)
  }

  /** One where an odd number of x, y, z are. */
  function H(x: bv32, y: bv32, z: bv32): (r: bv32)
    ensures r == (x & y & z) | (x & !y & !z) | (!x & y & !z) | (!x & !y & z)
  {
    x ^ y ^ z
  }

  /** Where z is one, whether x and y differ; elsewhere the opposite of y. */
  function I(x: bv32, y: bv32, z: bv32): (r: bv32)
    ensures r & z == (x ^ y) & z && r & !z == !y & !z
  {
    y ^ (x | !z)
  }

  function RotateLeft(x: bv32, n: ShiftCount): bv32 {
    (x << n) | (x >> (32 - n))
  }

  /** a += f + x + ac; a = ROTATE_LEFT(a, s); a += b, where f is the round's function of b, c, d. */
  function Mix(a: Word, b: Word, f: bv32, x: Word, s: ShiftCount, ac: Word): Word {
    W(RotateLeft(a.v + f + x.v + ac.v, s) + b.v)
  }

  type StepMacro = (Word, Word, Word, Word, Word, ShiftCount, Word) -> Word

  function StepF(a: Word, b: Word, c: Word, d: Word, x: Word, s: ShiftCount, ac: Word): Word {
    Mix(a, b, F(b.v, c.v, d.v), x, s, ac)
  }

  function StepG(a: Word, b: Word, c: Word, d: Word, x: Word, s: ShiftCount, ac: Word): Word {
    Mix(a, b, G(b.v, c.v, d.v), x, s, ac)
  }

  function StepH(a: Word, b: Word, c: Word, d: Word, x: Word, s: ShiftCount, ac: Word): Word {
    Mix(a, b, H(b.v, c.v, d.v), x, s, ac)
  }

  function StepI(a: Word, b: Word, c: Word, d: Word, x: Word, s: ShiftCount, ac: Word): Word {
    Mix(a, b, I(b.v, c.v, d.v), x, s, ac)
  }

  // As values, so that proofs about the order of steps never open the bit arithmetic.
  const FF: StepMacro := StepF
  const GG: StepMacro := StepG
  const HH: StepMacro := StepH
  const II: StepMacro := StepI

  // ---------- Words and bytes, low-order byte first ----------

  function WordOfInt(n: U32): Word { W(n as bv32) }

  function Widened(b: byte): bv32 { b as bv32 }

  function WordOfBytes(b: FourBytes): Word {
    W(Widened(b[0]) | (Widened(b[1]) << 8) | (Widened(b[2]) << 16) | (Widened(b[3]) << 24))
  }

  function LowByte(v: bv32): byte { (v & 0xFF) as byte }

  function BytesOfWord(w: Word): FourBytes {
    [LowByte(w.v), LowByte(w.v >> 8), LowByte(w.v >> 16), LowByte(w.v >> 24)]
  }

  function Plus(x: Word, y: Word): Word { W(x.v + y.v) }

  const WORD: U32 -> Word := WordOfInt
  const PLUS: (Word, Word) -> Word := Plus
  const DECODE: FourBytes -> Word := WordOfBytes
  const ENCODE: Word -> FourBytes := BytesOfWord

  // ---------- RFC 1321, section 3.4: the schedule of 4 rounds of 16 steps ----------

  type WordIndex = k: nat | k < 16

  /** One operation [abcd k s i] of the RFC: message word, shift and the table entry T[i]. */
  datatype Row = Row(k: WordIndex, s: ShiftCount, t: Word)

  function Row1(j: nat): Row {
    match j
    case 0 => Row(0, 7, W(0xd76aa478))
    case 1 => Row(1, 12, W(0xe8c7b756))
    case 2 => Row(2, 17, W(0x242070db))
    case 3 => Row(3, 22, W(0xc1bdceee))
    case 4 => Row(4, 7, W(0xf57c0faf))
    case 5 => Row(5, 12, W(0x4787c62a))
    case 6 => Row(6, 17, W(0xa8304613))
    case 7 => Row(7, 22, W(0xfd469501))
    case 8 => Row(8, 7, W(0x698098d8))
    case 9 => Row(9, 12, W(0x8b44f7af))
    case 10 => Row(10, 17, W(0xffff5bb1))
    case 11 => Row(11, 22, W(0x895cd7be))
    case 12 => Row(12, 7, W(0x6b901122))
    case 13 => Row(13, 12, W(0xfd987193))
    case 14 => Row(14, 17, W(0xa679438e))
    case _ => Row(15, 22, W(0x49b40821))
  }

  function Row2(j: nat): Row {
    match j
    case 0 => Row(1, 5, W(0xf61e2562))
    case 1 => Row(6, 9, W(0xc040b340))
    case 2 => Row(11, 14, W(0x265e5a51))
    case 3 => Row(0, 20, W(0xe9b6c7aa))
    case 4 => Row(5, 5, W(0xd62f105d))
    case 5 => Row(10, 9, W(0x02441453))
    case 6 => Row(15, 14, W(0xd8a1e681))
    case 7 => Row(4, 20, W(0xe7d3fbc8))
    case 8 => Row(9, 5, W(0x21e1cde6))
    case 9 => Row(14, 9, W(0xc33707d6))
    case 10 => Row(3, 14, W(0xf4d50d87))
    case 11 => Row(8, 20, W(0x455a14ed))
    case 12 => Row(13, 5, W(0xa9e3e905))
    case 13 => Row(2, 9, W(0xfcefa3f8))
    case 14 => Row(7, 14, W(0x676f02d9))
    case _ => Row(12, 20, W(0x8d2a4c8a))
  }

  function Row3(j: nat): Row {
    match j
    case 0 => Row(5, 4, W(0xfffa3942))
    case 1 => Row(8, 11, W(0x8771f681))
    case 2 => Row(11, 16, W(0x6d9d6122))
    case 3 => Row(14, 23, W(0xfde5380c))
    case 4 => Row(1, 4, W(0xa4beea44))
    case 5 => Row(4, 11, W(0x4bdecfa9))
    case 6 => Row(7, 16, W(0xf6bb4b60))
    case 7 => Row(10, 23, W(0xbebfbc70))
    case 8 => Row(13, 4, W(0x289b7ec6))
    case 9 => Row(0, 11, W(0xeaa127fa))
    case 10 => Row(3, 16, W(0xd4ef3085))
    case 11 => Row(6, 23, W(0x04881d05))
    case 12 => Row(9, 4, W(0xd9d4d039))
    case 13 => Row(12, 11, W(0xe6db99e5))
    case 14 => Row(15, 16, W(0x1fa27cf8))
    case _ => Row(2, 23, W(0xc4ac5665))
  }

  function Row4(j: nat): Row {
    match j
    case 0 => Row(0, 6, W(0xf4292244))
    case 1 => Row(7, 10, W(0x432aff97))
    case 2 => Row(14, 15, W(0xab9423a7))
    case 3 => Row(5, 21, W(0xfc93a039))
    case 4 => Row(12, 6, W(0x655b59c3))
    case 5 => Row(3, 10, W(0x8f0ccc92))
    case 6 => Row(10, 15, W(0xffeff47d))
    case 7 => Row(1, 21, W(0x85845dd1))
    case 8 => Row(8, 6, W(0x6fa87e4f))
    case 9 => Row(15, 10, W(0xfe2ce6e0))
    case 10 => Row(6, 15, W(0xa3014314))
    case 11 => Row(13, 21, W(0x4e0811a1))
    case 12 => Row(4, 6, W(0xf7537e82))
    case 13 => Row(11, 10, W(0xbd3af235))
    case 14 => Row(2, 15, W(0x2ad7d2bb))
    case _ => Row(9, 21, W(0xeb86d391))
  }

  function RowOf(round: nat, j: nat): Row {
    match round case 0 => Row1(j) case 1 => Row2(j) case 2 => Row3(j) case _ => Row4(j)
  }

  function MacroOf(round: nat): StepMacro {
    match round case 0 => FF case 1 => GG case 2 => HH case _ => II
  }

  /** One step: the new word replaces the first, and the four roles rotate. */
  function Step(f: StepMacro, row: Row, q: Quad, x: seq<Word>): Quad
    requires |x| == 16
  {
    Quad(q.d, f(q.a, q.b, q.c, q.d, x[row.k], row.s, row.t), q.b, q.c)
  }

  /** The first n steps of a round. */
  function Steps(round: nat, q: Quad, x: seq<Word>, n: nat): Quad
    requires |x| == 16 && n <= 16
    decreases n
  {
    if n == 0 then q else Step(MacroOf(round), RowOf(round, n - 1), Steps(round, q, x, n - 1), x)
  }

  function OfFour(a: ShiftCount, b: ShiftCount, c: ShiftCount, d: ShiftCount, j: nat): ShiftCount {
    match j case 0 => a case 1 => b case 2 => c case _ => d
  }

  /** The tables follow the index rules of the four rounds. */
  lemma ScheduleRule(j: nat)
    requires j < 16
    ensures Row1(j).k == j && Row2(j).k == (1 + 5 * j) % 16
    ensures Row3(j).k == (5 + 3 * j) % 16 && Row4(j).k == (7 * j) % 16
  {
  }

  /** In each round four shift counts take turns. */
  lemma ShiftRule(j: nat)
    requires j < 16
    ensures Row1(j).s == OfFour(7, 12, 17, 22, j % 4) && Row2(j).s == OfFour(5, 9, 14, 20, j % 4)
    ensures Row3(j).s == OfFour(4, 11, 16, 23, j % 4) && Row4(j).s == OfFour(6, 10, 15, 21, j % 4)
  {
  }

  method Round1(a0: Word, b0: Word, c0: Word, d0: Word, x: seq<Word>)
    returns (a: Word, b: Word, c: Word, d: Word)
    requires |x| == 16
    ensures Quad(a, b, c, d) == Steps(0, Quad(a0, b0, c0, d0), x, 16)
  {
    a, b, c, d := a0, b0, c0, d0;
    ghost var q := Quad(a, b, c, d);
    a := FF(a, b, c, d, x[0], 7, W(0xd76aa478));  assert Quad(d, a, b, c) == Steps(0, q, x, 1);
    d := FF(d, a, b, c, x[1], 12, W(0xe8c7b756));  assert Quad(c, d, a, b) == Steps(0, q, x, 2);
    c := FF(c, d, a, b, x[2], 17, W(0x242070db));  assert Quad(b, c, d, a) == Steps(0, q, x, 3);
    b := FF(b, c, d, a, x[3], 22, W(0xc1bdceee));  assert Quad(a, b, c, d) == Steps(0, q, x, 4);
    a := FF(a, b, c, d, x[4], 7, W(0xf57c0faf));  assert Quad(d, a, b, c) == Steps(0, q, x, 5);
    d := FF(d, a, b, c, x[5], 12, W(0x4787c62a));  assert Quad(c, d, a, b) == Steps(0, q, x, 6);
    c := FF(c, d, a, b, x[6], 17, W(0xa8304613));  assert Quad(b, c, d, a) == Steps(0, q, x, 7);
    b := FF(b, c, d, a, x[7], 22, W(0xfd469501));  assert Quad(a, b, c, d) == Steps(0, q, x, 8);
    a := FF(a, b, c, d, x[8], 7, W(0x698098d8));  assert Quad(d, a, b, c) == Steps(0, q, x, 9);
    d := FF(d, a, b, c, x[9], 12, W(0x8b44f7af));  assert Quad(c, d, a, b) == Steps(0, q, x, 10);
    c := FF(c, d, a, b, x[10], 17, W(0xffff5bb1));  assert Quad(b, c, d, a) == Steps(0, q, x, 11);
    b := FF(b, c, d, a, x[11], 22, W(0x895cd7be));  assert Quad(a, b, c, d) == Steps(0, q, x, 12);
    a := FF(a, b, c, d, x[12], 7, W(0x6b901122));  assert Quad(d, a, b, c) == Steps(0, q, x, 13);
    d := FF(d, a, b, c, x[13], 12, W(0xfd987193));  assert Quad(c, d, a, b) == Steps(0, q, x, 14);
    c := FF(c, d, a, b, x[14], 17, W(0xa679438e));  assert Quad(b, c, d, a) == Steps(0, q, x, 15);
    b := FF(b, c, d, a, x[15], 22, W(0x49b40821));  assert Quad(a, b, c, d) == Steps(0, q, x, 16);
  }

  method Round2(a0: Word, b0: Word, c0: Word, d0: Word, x: seq<Word>)
    returns (a: Word, b: Word, c: Word, d: Word)
    requires |x| == 16
    ensures Quad(a, b, c, d) == Steps(1, Quad(a0, b0, c0, d0), x, 16)
  {
    a, b, c, d := a0, b0, c0, d0;
    ghost var q := Quad(a, b, c, d);
    a := GG(a, b, c, d, x[1], 5, W(0xf61e2562));  assert Quad(d, a, b, c) == Steps(1, q, x, 1);
    d := GG(d, a, b, c, x[6], 9, W(0xc040b340));  assert Quad(c, d, a, b) == Steps(1, q, x, 2);
    c := GG(c, d, a, b, x[11], 14, W(0x265e5a51));  assert Quad(b, c, d, a) == Steps(1, q, x, 3);
    b := GG(b, c, d, a, x[0], 20, W(0xe9b6c7aa));  assert Quad(a, b, c, d) == Steps(1, q, x, 4);
    a := GG(a, b, c, d, x[5], 5, W(0xd62f105d));  assert Quad(d, a, b, c) == Steps(1, q, x, 5);
    d := GG(d, a, b, c, x[10], 9, W(0x02441453));  assert Quad(c, d, a, b) == Steps(1, q, x, 6);
    c := GG(c, d, a, b, x[15], 14, W(0xd8a1e681));  assert Quad(b, c, d, a) == Steps(1, q, x, 7);
    b := GG(b, c, d, a, x[4], 20, W(0xe7d3fbc8));  assert Quad(a, b, c, d) == Steps(1, q, x, 8);
    a := GG(a, b, c, d, x[9], 5, W(0x21e1cde6));  assert Quad(d, a, b, c) == Steps(1, q, x, 9);
    d := GG(d, a, b, c, x[14], 9, W(0xc33707d6));  assert Quad(c, d, a, b) == Steps(1, q, x, 10);
    c := GG(c, d, a, b, x[3], 14, W(0xf4d50d87));  assert Quad(b, c, d, a) == Steps(1, q, x, 11);
    b := GG(b, c, d, a, x[8], 20, W(0x455a14ed));  assert Quad(a, b, c, d) == Steps(1, q, x, 12);
    a := GG(a, b, c, d, x[13], 5, W(0xa9e3e905));  assert Quad(d, a, b, c) == Steps(1, q, x, 13);
    d := GG(d, a, b, c, x[2], 9, W(0xfcefa3f8));  assert Quad(c, d, a, b) == Steps(1, q, x, 14);
    c := GG(c, d, a, b, x[7], 14, W(0x676f02d9));  assert Quad(b, c, d, a) == Steps(1, q, x, 15);
    b := GG(b, c, d, a, x[12], 20, W(0x8d2a4c8a));  assert Quad(a, b, c, d) == Steps(1, q, x, 16);
  }

  method Round3(a0: Word, b0: Word, c0: Word, d0: Word, x: seq<Word>)
    returns (a: Word, b: Word, c: Word, d: Word)
    requires |x| == 16
    ensures Quad(a, b, c, d) == Steps(2, Quad(a0, b0, c0, d0), x, 16)
  {
    a, b, c, d := a0, b0, c0, d0;
    ghost var q := Quad(a, b, c, d);
    a := HH(a, b, c, d, x[5], 4, W(0xfffa3942));  assert Quad(d, a, b, c) == Steps(2, q, x, 1);
    d := HH(d, a, b, c, x[8], 11, W(0x8771f681));  assert Quad(c, d, a, b) == Steps(2, q, x, 2);
    c := HH(c, d, a, b, x[11], 16, W(0x6d9d6122));  assert Quad(b, c, d, a) == Steps(2, q, x, 3);
    b := HH(b, c, d, a, x[14], 23, W(0xfde5380c));  assert Quad(a, b, c, d) == Steps(2, q, x, 4);
    a := HH(a, b, c, d, x[1], 4, W(0xa4beea44));  assert Quad(d, a, b, c) == Steps(2, q, x, 5);
    d := HH(d, a, b, c, x[4], 11, W(0x4bdecfa9));  assert Quad(c, d, a, b) == Steps(2, q, x, 6);
    c := HH(c, d, a, b, x[7], 16, W(0xf6bb4b60));  assert Quad(b, c, d, a) == Steps(2, q, x, 7);
    b := HH(b, c, d, a, x[10], 23, W(0xbebfbc70));  assert Quad(a, b, c, d) == Steps(2, q, x, 8);
    a := HH(a, b, c, d, x[13], 4, W(0x289b7ec6));  assert Quad(d, a, b, c) == Steps(2, q, x, 9);
    d := HH(d, a, b, c, x[0], 11, W(0xeaa127fa));  assert Quad(c, d, a, b) == Steps(2, q, x, 10);
    c := HH(c, d, a, b, x[3], 16, W(0xd4ef3085));  assert Quad(b, c, d, a) == Steps(2, q, x, 11);
    b := HH(b, c, d, a, x[6], 23, W(0x04881d05));  assert Quad(a, b, c, d) == Steps(2, q, x, 12);
    a := HH(a, b, c, d, x[9], 4, W(0xd9d4d039));  assert Quad(d, a, b, c) == Steps(2, q, x, 13);
    d := HH(d, a, b, c, x[12], 11, W(0xe6db99e5));  assert Quad(c, d, a, b) == Steps(2, q, x, 14);
    c := HH(c, d, a, b, x[15], 16, W(0x1fa27cf8));  assert Quad(b, c, d, a) == Steps(2, q, x, 15);
    b := HH(b, c, d, a, x[2], 23, W(0xc4ac5665));  assert Quad(a, b, c, d) == Steps(2, q, x, 16);
  }

  method Round4(a0: Word, b0: Word, c0: Word, d0: Word, x: seq<Word>)
    returns (a: Word, b: Word, c: Word, d: Word)
    requires |x| == 16
    ensures Quad(a, b, c, d) == Steps(3, Quad(a0, b0, c0, d0), x, 16)
  {
    a, b, c, d := a0, b0, c0, d0;
    ghost var q := Quad(a, b, c, d);
    a := II(a, b, c, d, x[0], 6, W(0xf4292244));  assert Quad(d, a, b, c) == Steps(3, q, x, 1);
    d := II(d, a, b, c, x[7], 10, W(0x432aff97));  assert Quad(c, d, a, b) == Steps(3, q, x, 2);
    c := II(c, d, a, b, x[14], 15, W(0xab9423a7));  assert Quad(b, c, d, a) == Steps(3, q, x, 3);
    b := II(b, c, d, a, x[5], 21, W(0xfc93a039));  assert Quad(a, b, c, d) == Steps(3, q, x, 4);
    a := II(a, b, c, d, x[12], 6, W(0x655b59c3));  assert Quad(d, a, b, c) == Steps(3, q, x, 5);
    d := II(d, a, b, c, x[3], 10, W(0x8f0ccc92));  assert Quad(c, d, a, b) == Steps(3, q, x, 6);
    c := II(c, d, a, b, x[10], 15, W(0xffeff47d));  assert Quad(b, c, d, a) == Steps(3, q, x, 7);
    b := II(b, c, d, a, x[1], 21, W(0x85845dd1));  assert Quad(a, b, c, d) == Steps(3, q, x, 8);
    a := II(a, b, c, d, x[8], 6, W(0x6fa87e4f));  assert Quad(d, a, b, c) == Steps(3, q, x, 9);
    d := II(d, a, b, c, x[15], 10, W(0xfe2ce6e0));  assert Quad(c, d, a, b) == Steps(3, q, x, 10);
    c := II(c, d, a, b, x[6], 15, W(0xa3014314));  assert Quad(b, c, d, a) == Steps(3, q, x, 11);
    b := II(b, c, d, a, x[13], 21, W(0x4e0811a1));  assert Quad(a, b, c, d) == Steps(3, q, x, 12);
    a := II(a, b, c, d, x[4], 6, W(0xf7537e82));  assert Quad(d, a, b, c) == Steps(3, q, x, 13);
    d := II(d, a, b, c, x[11], 10, W(0xbd3af235));  assert Quad(c, d, a, b) == Steps(3, q, x, 14);
    c := II(c, d, a, b, x[2], 15, W(0x2ad7d2bb));  assert Quad(b, c, d, a) == Steps(3, q, x, 15);
    b := II(b, c, d, a, x[9], 21, W(0xeb86d391));  assert Quad(a, b, c, d) == Steps(3, q, x, 16);
  }

  // ---------- MD5Decode and MD5Transform ----------

  function Words(block: Block): (x: seq<Word>)
    ensures |x| == 16
  {
    seq(16, i requires 0 <= i < 16 => DECODE(block[4 * i..4 * i + 4]))
  }

  type MessageWords = x: seq<Word> | |x| == 16 witness seq(16, i => W(0))

  function AllRounds(q: Quad, x: MessageWords): Quad {
    Steps(3, Steps(2, Steps(1, Steps(0, q, x, 16), x, 16), x, 16), x, 16)
  }

  const ROUNDS: (Quad, MessageWords) -> Quad := AllRounds

  function Added(q: Quad, r: Quad): Quad {
    Quad(PLUS(q.a, r.a), PLUS(q.b, r.b), PLUS(q.c, r.c), PLUS(q.d, r.d))
  }

  /** The compression function of the RFC: four rounds over the block's words, added to the input. */
  function CompressBlock(q: Quad, block: Block): Quad {
    Added(q, ROUNDS(q, Words(block)))
  }

  ghost predicate IsCompress(f: (Quad, Block) -> Quad) {
    forall q, block {:trigger CompressBlock(q, block)} :: f(q, block) == CompressBlock(q, block)
  }

  lemma CompressExists()
    ensures exists f: (Quad, Block) -> Quad :: IsCompress(f)
  {
    hide CompressBlock;
    var f: (Quad, Block) -> Quad := CompressBlock;
    assert IsCompress(f);
  }

  /** CompressBlock as a value whose definition opens only where CompressBlock itself is named. */
  ghost const COMPRESS: (Quad, Block) -> Quad := (CompressExists(); var f :| IsCompress(f); f)

  function QuadOf(state: array<Word>): Quad
    requires state.Length == 4
    reads state
  {
    Quad(state[0], state[1], state[2], state[3])
  }

  method Decode(output: array<Word>, input: Block)
    requires output.Length >= 16
    modifies output
    ensures output[..16] == Words(input)
  {
    var i, j := 0, 0;
    while j < 64
      invariant 0 <= i <= 16 && j == 4 * i
      invariant output[..i] == Words(input)[..i]
    {
      output[i] := DECODE(input[j..j + 4]);
      i, j := i + 1, j + 4;
    }
  }

  /** The words as bytes, one after the other. */
  function Encoded(words: seq<Word>): (b: Bytes)
    ensures |b| == 4 * |words|
  {
    if words == [] then [] else Encoded(words[..|words| - 1]) + ENCODE(words[|words| - 1])
  }

  method Encode(input: seq<Word>) returns (output: Bytes)
    ensures output == Encoded(input)
  {
    output := [];
    var i, j := 0, 0;
    while j < 4 * |input|
      invariant 0 <= i <= |input| && j == 4 * i
      invariant output == Encoded(input[..i])
    {
      assert input[..i + 1][..i] == input[..i];
      output := output + ENCODE(input[i]);
      i, j := i + 1, j + 4;
    }
    assert input[..i] == input;
  }

  lemma EncodedTwo(a: Word, b: Word)
    ensures Encoded([a, b]) == ENCODE(a) + ENCODE(b)
  {
    assert [a, b][..1] == [a] && [a][..0] == [];
  }

  lemma EncodedFour(a: Word, b: Word, c: Word, d: Word)
    ensures Encoded([a, b, c, d]) == ENCODE(a) + ENCODE(b) + ENCODE(c) + ENCODE(d)
  {
    EncodedTwo(a, b);
    assert [a, b, c, d][..3] == [a, b, c] && [a, b, c][..2] == [a, b];
  }

  method Rounds(a0: Word, b0: Word, c0: Word, d0: Word, x: MessageWords)
    returns (a: Word, b: Word, c: Word, d: Word)
    ensures Quad(a, b, c, d) == ROUNDS(Quad(a0, b0, c0, d0), x)
  {
    a, b, c, d := Round1(a0, b0, c0, d0, x);
    a, b, c, d := Round2(a, b, c, d, x);
    a, b, c, d := Round3(a, b, c, d, x);
    a, b, c, d := Round4(a, b, c, d, x);
    assert ROUNDS(Quad(a0, b0, c0, d0), x) == AllRounds(Quad(a0, b0, c0, d0), x);
  }

  method Transform(state: array<Word>, block: Block)
    requires state.Length == 4
    modifies state
    ensures QuadOf(state) == COMPRESS(old(QuadOf(state)), block)
  {
    hide AllRounds, Steps;
    var x := new Word[64](i => W(0));
    Decode(x, block);
    var a, b, c, d := Rounds(state[0], state[1], state[2], state[3], x[..16]);
    assert COMPRESS(QuadOf(state), block) == CompressBlock(QuadOf(state), block);
    state[0], state[1], state[2], state[3] :=
      PLUS(state[0], a), PLUS(state[1], b), PLUS(state[2], c), PLUS(state[3], d);
  }
}
