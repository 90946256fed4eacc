/** The free-block bitmap of fs.c: one bit per block, BPB bits per bitmap block. */
module Bitmap {
  import opened Blocks

  const BPB: nat := 4096

  /** `x & (1 << k)` is non-zero. */
  predicate Bit(x: nat, k: nat)
    decreases k
  {
    if k == 0 then x % 2 == 1 else Bit(x / 2, k - 1)
  }

  /** `x | (1 << k)` or `x & ~(1 << k)`. */
  function WithBit(x: nat, k: nat, on: bool): (y: nat)
    ensures Bit(y, k) == on
    decreases k
  {
    if k == 0 then (if on then x / 2 * 2 + 1 else x / 2 * 2) else 2 * WithBit(x / 2, k - 1, on) + x % 2
  }

  lemma {:induction false} OtherBits(x: nat, k: nat, on: bool, j: nat)
    requires j != k
    ensures Bit(WithBit(x, k, on), j) == Bit(x, j)
    decreases k
  {
    if k == 0 {
      Halve(x / 2, if on then 1 else 0);
    } else {
      Halve(WithBit(x / 2, k - 1, on), x % 2);
      if j > 0 {
        OtherBits(x / 2, k - 1, on, j - 1);
      }
    }
  }

  lemma Halve(z: nat, r: nat)
    requires r < 2
    ensures (2 * z + r) / 2 == z && (2 * z + r) % 2 == r && z * 2 == 2 * z
  {
  }

  function Pow2(w: nat): nat {
    if w == 0 then 1 else 2 * Pow2(w - 1)
  }

  lemma {:induction false} BitFits(x: nat, k: nat, on: bool, w: nat)
    requires k < w && x < Pow2(w)
    ensures WithBit(x, k, on) < Pow2(w)
    decreases k
  {
    assert Pow2(w) == 2 * Pow2(w - 1);
    HalfBelow(x, Pow2(w - 1));
    if k > 0 {
      BitFits(x / 2, k - 1, on, w - 1);
    }
    hide Pow2;
  }

  lemma HalfBelow(x: nat, p: nat)
    requires x < 2 * p
    ensures x / 2 < p && x == x / 2 * 2 + x % 2
  {
  }

  lemma ByteFits(x: Byte, k: nat, on: bool)
    requires k < 8
    ensures WithBit(x, k, on) < 256
  {
    assert Pow2(3) == 8;
    assert Pow2(5) == 32;
    assert Pow2(8) == 256;
    BitFits(x, k, on, 8);
  }

  /** The bit for the bi-th block of a bitmap block. */
  predicate BlockBit(d: Block, bi: nat)
    requires bi < BPB
  {
    Bit(d[bi / 8], bi % 8)
  }

  function PutBlockBit(d: Block, bi: nat, on: bool): (r: Block)
    requires bi < BPB
  {
    ByteFits(d[bi / 8], bi % 8, on);
    d[bi / 8 := WithBit(d[bi / 8], bi % 8, on)]
  }

  /** Writing one bit of a bitmap block changes that bit and no other. */
  lemma PutBlockBitMeaning(d: Block, bi: nat, on: bool, bj: nat)
    requires bi < BPB && bj < BPB
    ensures BlockBit(PutBlockBit(d, bi, on), bj) == if bj == bi then on else BlockBit(d, bj)
  {
    if bj / 8 == bi / 8 && bj != bi {
      OtherBits(d[bi / 8], bi % 8, on, bj % 8);
    }
  }

  /** Block b is marked in use by the bitmap that starts at block `start`. */
  predicate Used(blocks: seq<Block>, start: nat, b: nat)
    requires start + b / BPB < |blocks|
  {
    BlockBit(blocks[start + b / BPB], b % BPB)
  }

  function Mark(blocks: seq<Block>, start: nat, b: nat, on: bool): (r: seq<Block>)
    requires start + b / BPB < |blocks|
    ensures |r| == |blocks|
    ensures forall k :: 0 <= k < |blocks| && k != start + b / BPB ==> r[k] == blocks[k]
  {
    var bb := start + b / BPB;
    blocks[bb := PutBlockBit(blocks[bb], b % BPB, on)]
  }

  /** Marking one block changes the bit of that block and of no other. */
  lemma MarkMeaning(blocks: seq<Block>, start: nat, b: nat, on: bool, c: nat)
    requires start + b / BPB < |blocks| && start + c / BPB < |blocks|
    ensures Used(Mark(blocks, start, b, on), start, c) == if c == b then on else Used(blocks, start, c)
  {
    if c / BPB == b / BPB {
      PutBlockBitMeaning(blocks[start + b / BPB], b % BPB, on, c % BPB);
    }
  }
}
