/** Disk blocks: 512 bytes each, also read as 128 little-endian 32-bit words. */
module Blocks {

  const BSIZE: nat := 512
  const WORDS: nat := 128
  const WORD_RANGE: nat := 0x1_0000_0000

  type Byte = x: int | 0 <= x < 256
  type Uint = x: int | 0 <= x < 0x1_0000_0000

  type Block = b: seq<Byte> | |b| == 512 witness seq(512, _ => 0)

  function ZeroBlock(): (b: Block)
    ensures forall i :: 0 <= i < BSIZE ==> b[i] == 0
  {
    seq(BSIZE, _ => 0)
  }

  function FromBytes(b0: int, b1: int, b2: int, b3: int): int {
    b0 + 0x100 * b1 + 0x1_0000 * b2 + 0x100_0000 * b3
  }

  /** The i-th word of a block, as a cast of the data to `uint*` reads it. */
  function Word(b: Block, i: nat): (w: Uint)
    requires i < WORDS
  {
    FromBytes(b[4 * i], b[4 * i + 1], b[4 * i + 2], b[4 * i + 3])
  }

  lemma BytesOfWord(v: Uint)
    ensures 0 <= v / 0x100_0000 < 0x100
    ensures FromBytes(v % 0x100, v / 0x100 % 0x100, v / 0x1_0000 % 0x100, v / 0x100_0000) == v
  {
    var q1 := v / 0x100;
    var q2 := q1 / 0x100;
    assert q2 == v / 0x1_0000;
    assert q2 / 0x100 == v / 0x100_0000;
  }

  /** The four bytes of a word, lowest first. */
  function WordBytes(v: Uint): (r: seq<Byte>)
    ensures |r| == 4 && FromBytes(r[0], r[1], r[2], r[3]) == v
  {
    BytesOfWord(v);
    [v % 0x100, v / 0x100 % 0x100, v / 0x1_0000 % 0x100, v / 0x100_0000]
  }

  /** Store a word; every other word of the block is untouched. */
  function PutWord(b: Block, i: nat, v: Uint): (r: Block)
    requires i < WORDS
    ensures Word(r, i) == v
    ensures forall j :: 0 <= j < WORDS && j != i ==> Word(r, j) == Word(b, j)
  {
    PutBytes(b, i, WordBytes(v))
  }

  function PutBytes(b: Block, i: nat, v: seq<Byte>): (r: Block)
    requires i < WORDS && |v| == 4
    ensures Word(r, i) == FromBytes(v[0], v[1], v[2], v[3])
    ensures forall j :: 0 <= j < WORDS && j != i ==> Word(r, j) == Word(b, j)
  {
    b[..4 * i] + v + b[4 * i + 4..]
  }

  lemma ZeroWords(b: Block, i: nat)
    requires i < WORDS
    requires forall k :: 0 <= k < BSIZE ==> b[k] == 0
    ensures Word(b, i) == 0
  {
  }

  /** One block write: block number and contents. */
  type Written = (nat, Block)

  ghost predicate Within(ws: seq<Written>, n: nat) {
    forall k :: 0 <= k < |ws| ==> ws[k].0 < n
  }

  /** The disk image after a list of block writes. */
  ghost function ApplyAll(d: seq<Block>, ws: seq<Written>): (r: seq<Block>)
    requires Within(ws, |d|)
    ensures |r| == |d|
    decreases |ws|
  {
    if ws == [] then d else ApplyAll(d[ws[0].0 := ws[0].1], ws[1..])
  }

  /** Writing in two goes. */
  lemma {:induction false} ApplyBoth(d: seq<Block>, ws: seq<Written>, more: seq<Written>)
    requires Within(ws, |d|) && Within(more, |d|)
    ensures Within(ws + more, |d|) && ApplyAll(d, ws + more) == ApplyAll(ApplyAll(d, ws), more)
    decreases |ws|
  {
    if ws == [] {
      assert ws + more == more;
    } else {
      assert (ws + more)[1..] == ws[1..] + more;
      ApplyBoth(d[ws[0].0 := ws[0].1], ws[1..], more);
    }
  }

  lemma ApplyOne(d: seq<Block>, ws: seq<Written>, w: Written)
    requires Within(ws, |d|) && w.0 < |d|
    ensures Within(ws + [w], |d|) && ApplyAll(d, ws + [w]) == ApplyAll(d, ws)[w.0 := w.1]
  {
    ApplyBoth(d, ws, [w]);
    assert [w][1..] == [];
  }
}
