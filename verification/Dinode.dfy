/** On-disk inodes (fs.h, struct dinode): 64 bytes each, IPB to a block. */
module Dinode {
  import opened Blocks

  const NDIRECT: nat := 12
  const IPB: nat := 8
  const DWORDS: nat := 16

  type Ushort = x: int | 0 <= x < 0x1_0000

  type Addrs = s: seq<Uint> | |s| == 13 witness seq(13, _ => 0)

  /** The part of an inode that is kept on disk. */
  datatype Inode = Inode(typ: Ushort, major: Ushort, minor: Ushort, nlink: Ushort, size: Uint, addrs: Addrs)

  /** Word j of an inode as it lies on disk. */
  function InodeWord(ino: Inode, j: nat): Uint
    requires j < DWORDS
  {
    if j == 0 then ino.typ as int + 0x1_0000 * ino.major
    else if j == 1 then ino.minor as int + 0x1_0000 * ino.nlink
    else if j == 2 then ino.size
    else ino.addrs[j - 3]
  }

  /** Word j of the k-th inode of an inode block. */
  function WordAt(d: Block, k: nat, j: nat): Uint
    requires k < IPB && j < DWORDS
  {
    Word(d, DWORDS * k + j)
  }

  function AddrWords(d: Block, k: nat, n: nat): (s: seq<Uint>)
    requires k < IPB && n <= 13
    ensures |s| == n && forall j :: 0 <= j < n ==> s[j] == WordAt(d, k, j + 3)
  {
    if n == 0 then [] else AddrWords(d, k, n - 1) + [WordAt(d, k, n + 2)]
  }

  /** The k-th inode of an inode block, as ilock reads it. */
  function GetInode(d: Block, k: nat): Inode
    requires k < IPB
  {
    var w0: int, w1: int := WordAt(d, k, 0), WordAt(d, k, 1);
    Inode(w0 % 0x1_0000, w0 / 0x1_0000, w1 % 0x1_0000, w1 / 0x1_0000, WordAt(d, k, 2), AddrWords(d, k, 13))
  }

  function PutWordAt(d: Block, k: nat, j: nat, v: Uint): (r: Block)
    requires k < IPB && j < DWORDS
    ensures WordAt(r, k, j) == v
    ensures forall k', j' :: 0 <= k' < IPB && 0 <= j' < DWORDS && (k' != k || j' != j) ==> WordAt(r, k', j') == WordAt(d, k', j')
  {
    PutWord(d, DWORDS * k + j, v)
  }

  /** Storing the first n words of an inode, as iupdate does. */
  function PutInodeWords(d: Block, k: nat, ino: Inode, n: nat): (r: Block)
    requires k < IPB && n <= DWORDS
    ensures forall j :: 0 <= j < n ==> WordAt(r, k, j) == InodeWord(ino, j)
    ensures forall k', j' :: 0 <= k' < IPB && 0 <= j' < DWORDS && k' != k ==> WordAt(r, k', j') == WordAt(d, k', j')
  {
    if n == 0 then d else PutWordAt(PutInodeWords(d, k, ino, n - 1), k, n - 1, InodeWord(ino, n - 1))
  }

  function PutInode(d: Block, k: nat, ino: Inode): (r: Block)
    requires k < IPB
  {
    PutInodeWords(d, k, ino, DWORDS)
  }

  lemma Halves(lo: Ushort, hi: Ushort)
    ensures (lo as int + 0x1_0000 * hi) % 0x1_0000 == lo
    ensures (lo as int + 0x1_0000 * hi) / 0x1_0000 == hi
  {
  }

  lemma FromWords(r: Block, k: nat, ino: Inode)
    requires k < IPB && forall j :: 0 <= j < DWORDS ==> WordAt(r, k, j) == InodeWord(ino, j)
    ensures GetInode(r, k) == ino
  {
    hide WordAt;
    Halves(ino.typ, ino.major);
    Halves(ino.minor, ino.nlink);
    assert WordAt(r, k, 0) == InodeWord(ino, 0);
    assert WordAt(r, k, 1) == InodeWord(ino, 1);
    assert WordAt(r, k, 2) == InodeWord(ino, 2);
    forall i | 0 <= i < 13 ensures AddrWords(r, k, 13)[i] == ino.addrs[i] {
      assert WordAt(r, k, i + 3) == InodeWord(ino, i + 3);
    }
    assert GetInode(r, k).addrs == ino.addrs;
  }

  lemma SameWords(r: Block, d: Block, j: nat)
    requires j < IPB && forall i :: 0 <= i < DWORDS ==> WordAt(r, j, i) == WordAt(d, j, i)
    ensures GetInode(r, j) == GetInode(d, j)
  {
    hide WordAt;
    assert AddrWords(r, j, 13) == AddrWords(d, j, 13);
  }

  /** iupdate then ilock gives the inode back, and no other inode of the block is disturbed. */
  lemma InodeRoundTrip(d: Block, k: nat, ino: Inode, j: nat)
    requires k < IPB && j < IPB
    ensures GetInode(PutInode(d, k, ino), j) == if j == k then ino else GetInode(d, j)
  {
    hide GetInode, WordAt, InodeWord;
    if j == k {
      FromWords(PutInode(d, k, ino), k, ino);
    } else {
      SameWords(PutInode(d, k, ino), d, j);
    }
  }
}
