/** Merkle-Damgard folding over 64-byte blocks, for any compression function. */
module Blocks {
  import opened Base

  type Block = b: Bytes | |b| == 64 witness seq(64, i => 0)

  /** The chaining value after the blocks of m, taken from the left. */
  function Fold<S>(f: (S, Block) -> S, s: S, m: Bytes): S
    requires |m| % 64 == 0
    decreases |m|
  {
    if m == [] then s else Fold(f, f(s, m[..64]), m[64..])
  }

  lemma {:induction false} FoldAppend<S>(f: (S, Block) -> S, s: S, m: Bytes, block: Block)
    requires |m| % 64 == 0
    ensures Fold(f, s, m + block) == f(Fold(f, s, m), block)
    decreases |m|
  {
    if m == [] {
      assert m + block == block && block[..64] == block && block[64..] == [];
    } else {
      assert (m + block)[..64] == m[..64] && (m + block)[64..] == m[64..] + block;
      FoldAppend(f, f(s, m[..64]), m[64..], block);
    }
  }
}
