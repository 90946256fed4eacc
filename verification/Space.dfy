/** How many blocks a write needs and how many there are (fs.c, balloc and bmap). */
module Space {
  import opened Blocks
  import opened Bitmap
  import opened Dinode
  import opened FileSpec

  /** The blocks the bitmap leaves unmarked. */
  ghost function FreeBlocks(sb: Superblock, blocks: seq<Block>): set<nat>
    requires ValidSb(sb) && |blocks| == sb.size
  {
    set b: nat | b < sb.size && !InUse(sb, blocks, b)
  }

  /** Data blocks less owned ones. */
  ghost function Room(sb: Superblock, owner: Owner): int {
    sb.size - sb.nmeta - |owner|
  }

  ghost function Range(lo: nat, hi: nat): (r: set<nat>)
    requires lo <= hi
    ensures |r| == hi - lo && forall b :: b in r <==> lo <= b < hi
    decreases hi
  {
    if lo == hi then {} else Range(lo, hi - 1) + {hi - 1}
  }

  /** The free blocks are the data blocks nobody owns, so counting owners counts them. */
  lemma FreeIs(sb: Superblock, blocks: seq<Block>, inodes: seq<Inode>, owner: Owner)
    requires Owned(sb, blocks, inodes, owner)
    ensures |FreeBlocks(sb, blocks)| == Room(sb, owner)
  {
    hide InUse, AddrOf, Named, Range;
    var data := Range(sb.nmeta, sb.size);
    assert owner.Keys <= data;
    assert FreeBlocks(sb, blocks) == data - owner.Keys;
    Cardinality(data, owner.Keys);
  }

  lemma Cardinality(a: set<nat>, b: set<nat>)
    requires b <= a
    ensures |a - b| == |a| - |b|
  {
    assert (a - b) + b == a;
  }

  /** balloc finds a block exactly when there is room. */
  lemma RoomFor(sb: Superblock, blocks: seq<Block>, inodes: seq<Inode>, owner: Owner)
    requires Owned(sb, blocks, inodes, owner)
    ensures Room(sb, owner) > 0 <==> exists b: nat :: b < sb.size && !InUse(sb, blocks, b)
    ensures Room(sb, owner) >= 0
  {
    FreeIs(sb, blocks, inodes, owner);
    var free := FreeBlocks(sb, blocks);
    hide InUse, Owned;
    if |free| > 0 {
      var b :| b in free;
    } else {
      assert free == {};
      assert forall b: nat :: b < sb.size && !InUse(sb, blocks, b) ==> b in free;
    }
  }

  /** It succeeds exactly when there is room for k more blocks, and takes them. */
  ghost predicate Spends(sb: Superblock, ow0: Owner, ow: Owner, ok: bool, k: nat) {
    (ok <==> Room(sb, ow0) >= k) && (ok ==> |ow| == |ow0| + k)
  }

  lemma SpendsNone(sb: Superblock, blocks: seq<Block>, inodes: seq<Inode>, owner: Owner)
    requires Owned(sb, blocks, inodes, owner)
    ensures Spends(sb, owner, owner, true, 0)
  {
    RoomFor(sb, blocks, inodes, owner);
  }

  lemma SpendsOne(sb: Superblock, blocks: seq<Block>, inodes: seq<Inode>, owner: Owner, b: nat, i: nat, s: nat)
    requires Owned(sb, blocks, inodes, owner) && b < sb.size && !InUse(sb, blocks, b) && b !in owner
    ensures Spends(sb, owner, owner[b := (i, s)], true, 1)
  {
    RoomFor(sb, blocks, inodes, owner);
    OneMore(owner, b, i, s);
    hide InUse, Owned;
  }

  lemma SpendsFails(sb: Superblock, blocks: seq<Block>, inodes: seq<Inode>, owner: Owner)
    requires Owned(sb, blocks, inodes, owner) && forall b: nat :: b < sb.size ==> InUse(sb, blocks, b)
    ensures Spends(sb, owner, owner, false, 1)
  {
    RoomFor(sb, blocks, inodes, owner);
    hide InUse, Owned;
  }

  lemma OneMore(owner: Owner, b: nat, i: nat, s: nat)
    requires b !in owner
    ensures |owner[b := (i, s)]| == |owner| + 1
  {
    assert owner[b := (i, s)].Keys == owner.Keys + {b};
  }

  /** The blocks bmap has to allocate for block bn of an inode. */
  function Wants(blocks: seq<Block>, ino: Inode, bn: nat): nat
    requires bn < MAXFILE && ino.addrs[INDIRECT] < |blocks|
  {
    (if AddrOf(blocks, ino, Slot(bn)) == 0 then 1 else 0) + (if bn >= NDIRECT && ino.addrs[INDIRECT] == 0 then 1 else 0)
  }

  /** The blocks of a file of a given length, its indirect block included. */
  function BlocksFor(len: nat): nat {
    (len + 511) / 512 + if len > 6144 then 1 else 0
  }

  /** The blocks a file gains when it is written up to `end`. */
  function Gains(len: nat, end: nat): nat {
    if end <= len then 0 else BlocksFor(end) - BlocksFor(len)
  }

  lemma GainsMore(len: nat, mid: nat, end: nat)
    requires mid <= end
    ensures Gains(len, end) == Gains(len, mid) + Gains(Max(len, mid), end)
    ensures Gains(len, mid) <= Gains(len, end)
  {
  }

  /** For a file that has exactly the blocks its length needs, one block's worth of writing at or before
      its end wants what the longer file has more. */
  lemma WantsGains(blocks: seq<Block>, ino: Inode, len: nat, off: nat, m: nat)
    requires ino.addrs[INDIRECT] < |blocks| && Extent(blocks, ino, len) && off <= len
    requires 0 < m <= 512 - off % 512 && off + m <= MAXBYTES
    ensures off / 512 < MAXFILE && Wants(blocks, ino, off / 512) == Gains(len, off + m)
  {
    var bn := off / 512;
    assert AddrOf(blocks, ino, Slot(bn)) != 0 <==> bn * 512 < len;
    hide AddrOf, Extent;
    OneBlock(len, off, m);
  }

  lemma OneBlock(len: nat, off: nat, m: nat)
    requires off <= len && 0 < m <= 512 - off % 512 && off + m <= 71680
    ensures var bn := off / 512;
      && bn < 140 && Gains(len, off + m) == (if bn * 512 < len then 0 else 1) + (if bn >= 12 && len <= 6144 then 1 else 0)
  {
    var bn := off / 512;
    assert off == bn * 512 + off % 512;
    if bn * 512 < len {
      if off + m > len {
        assert (off + m + 511) / 512 == bn + 1 && (len + 511) / 512 == bn + 1;
      }
    } else {
      assert off == len == bn * 512;
      assert (off + m + 511) / 512 == bn + 1 && (len + 511) / 512 == bn;
    }
  }
}
