/** fs.c's blocks and files as code over the logged block map: balloc, bfree, bmap, iupdate,
    readi, writei and itrunc. */
module Files {
  import opened Blocks
  import opened Bitmap
  import opened Dinode
  import opened FileSpec
  import opened LogEntries
  import opened Space

  /** The inode on disk. */
  function OnDisk(sb: Superblock, blocks: seq<Block>, i: nat): Inode
    requires sb.inodestart + i / IPB < |blocks|
  {
    GetInode(blocks[sb.inodestart + i / IPB], i % IPB)
  }

  class FileSystem {
    const sb: Superblock
    /** The block map that bread shows and log_write changes. */
    var blocks: seq<Block>
    /** The in-memory copies of the inodes. */
    var inodes: seq<Inode>
    ghost var owner: Owner
    /** The blocks given to log_write. */
    ghost var logged: set<nat>

    constructor (sb: Superblock, blocks: seq<Block>, inodes: seq<Inode>, ghost owner: Owner)
      requires Owned(sb, blocks, inodes, owner)
      ensures this.sb == sb && this.blocks == blocks && this.inodes == inodes && this.owner == owner && logged == {}
    {
      this.sb, this.blocks, this.inodes, this.owner := sb, blocks, inodes, owner;
      logged := {};
    }

    /** balloc: the lowest free block, marked and zeroed; false where it panics. */
    method Balloc() returns (ok: bool, b: nat)
      requires ValidSb(sb) && |blocks| == sb.size
      modifies this`blocks, this`logged
      ensures ok ==> b < sb.size && !InUse(sb, old(blocks), b) && blocks == Taken(sb, old(blocks), b)
      ensures ok ==> forall c: nat :: c < b ==> InUse(sb, old(blocks), c)
      ensures ok ==> logged == old(logged) + {sb.bmapstart + b / 4096, b}
      ensures !ok ==> blocks == old(blocks) && logged == old(logged) && forall c: nat :: c < sb.size ==> InUse(sb, blocks, c)
    {
      hide Bit, PutBlockBit, ZeroBlock;
      ok, b := false, 0;
      while b < sb.size
        invariant b % 4096 == 0 && blocks == old(blocks) && logged == old(logged)
        invariant forall c: nat :: c < b && c < sb.size ==> InUse(sb, blocks, c)
        decreases sb.size - b
      {
        DivMono(b, sb.size);
        var bi := Scan(b);
        if bi < BPB && b + bi < sb.size {
          InGroup(b, bi);
          var bb := sb.bmapstart + b / 4096;
          blocks := blocks[bb := PutBlockBit(blocks[bb], bi, true)];
          blocks := blocks[b + bi := ZeroBlock()];
          logged := logged + {bb, b + bi};
          ok, b := true, b + bi;
          return;
        }
        b := b + BPB;
      }
    }

    /** The first clear bit of one bitmap block. */
    method Scan(b: nat) returns (bi: nat)
      requires ValidSb(sb) && |blocks| == sb.size && b < sb.size && b % 4096 == 0
      ensures bi <= BPB && (bi < BPB ==> b + bi >= sb.size || !InUse(sb, blocks, b + bi))
      ensures forall c: nat :: b <= c < b + bi && c < sb.size ==> InUse(sb, blocks, c)
    {
      hide Bit;
      DivMono(b, sb.size);
      var bp := blocks[sb.bmapstart + b / 4096];
      bi := 0;
      while bi < BPB && b + bi < sb.size
        invariant 0 <= bi <= BPB
        invariant forall c: nat :: b <= c < b + bi && c < sb.size ==> InUse(sb, blocks, c)
      {
        InGroup(b, bi);
        if !Bit(bp[bi / 8], bi % 8) {
          return;
        }
        bi := bi + 1;
      }
    }

    /** bfree; false where it panics on a free block. */
    method Bfree(b: nat) returns (ok: bool)
      requires ValidSb(sb) && |blocks| == sb.size && b < sb.size
      modifies this`blocks, this`logged
      ensures ok == InUse(sb, old(blocks), b)
      ensures sb.bmapstart + b / BPB < sb.size
      ensures blocks == if ok then Mark(old(blocks), sb.bmapstart, b, false) else old(blocks)
      ensures logged == if ok then old(logged) + {sb.bmapstart + b / 4096} else old(logged)
    {
      DivMono(b, sb.size);
      var bp := blocks[sb.bmapstart + b / BPB];
      var bi := b % BPB;
      ok := Bit(bp[bi / 8], bi % 8);
      if ok {
        blocks := blocks[sb.bmapstart + b / BPB := PutBlockBit(bp, bi, false)];
        logged := logged + {sb.bmapstart + b / BPB};
      }
    }

    /** balloc into a direct slot, or the slot of the indirect block. */
    method AllocDirect(i: nat, s: nat) returns (ok: bool)
      requires Owned(sb, blocks, inodes, owner) && i < |inodes| && s <= INDIRECT && inodes[i].addrs[s] == 0
      modifies this
      ensures Grown(sb, old(blocks), old(inodes), old(owner), blocks, inodes, owner, i, if ok then {s} else {})
      ensures ok ==> inodes[i].addrs[s] != 0
      ensures Uses(sb, old(owner), owner, old(logged), logged, inodes[i], {})
      ensures forall a :: a in Added(old(owner), owner) ==> a in owner && owner[a] == (i, s)
      ensures Spends(sb, old(owner), owner, ok, 1)
    {
      hide Uses, Added, AddrOf, Named, Found, Marked, InUse, Taken, Grown, Spends;
      UsesNone(sb, owner, logged, inodes[i]);
      NoneAdded(owner);
      var b;
      ok, b := Balloc();
      if ok {
        FreeBlock(sb, old(blocks), inodes, owner, b);
        GrowDirect(sb, blocks, old(blocks), inodes, owner, i, s, b);
        SpendsOne(sb, old(blocks), inodes, owner, b, i, s);
        UsesOne(sb, owner, old(logged), b, i, s, inodes[i].(addrs := inodes[i].addrs[s := b]), {});
        inodes := inodes[i := inodes[i].(addrs := inodes[i].addrs[s := b])];
        owner := owner[b := (i, s)];
      } else {
        GrownNot(sb, blocks, inodes, owner, i);
        SpendsFails(sb, blocks, inodes, owner);
      }
    }

    /** balloc into an entry of the indirect block, and the log_write of that block. */
    method AllocEntry(i: nat, s: nat) returns (ok: bool)
      requires Owned(sb, blocks, inodes, owner) && i < |inodes| && INDIRECT < s < SLOTS
      requires inodes[i].addrs[INDIRECT] != 0 && AddrOf(blocks, inodes[i], s) == 0
      modifies this
      ensures inodes == old(inodes)
      ensures Grown(sb, old(blocks), old(inodes), old(owner), blocks, inodes, owner, i, if ok then {s} else {})
      ensures ok ==> AddrOf(blocks, inodes[i], s) != 0
      ensures Uses(sb, old(owner), owner, old(logged), logged, inodes[i], {})
      ensures forall a :: a in Added(old(owner), owner) ==> a in owner && owner[a] == (i, s)
      ensures Spends(sb, old(owner), owner, ok, 1)
    {
      hide Uses, Added, AddrOf, Named, Found, Marked, InUse, Taken, Grown, PutWord, Spends;
      UsesNone(sb, owner, logged, inodes[i]);
      NoneAdded(owner);
      var b;
      ok, b := Balloc();
      if ok {
        FreeBlock(sb, old(blocks), inodes, owner, b);
        SpendsOne(sb, old(blocks), inodes, owner, b, i, s);
        GrowEntry(sb, blocks, old(blocks), inodes, owner, i, s, b);
        var ind := inodes[i].addrs[INDIRECT];
        blocks := blocks[ind := PutWord(blocks[ind], s - INDIRECT - 1, b)];
        logged := logged + {ind as nat};
        UsesOne(sb, owner, old(logged), b, i, s, inodes[i], {ind as nat});
        owner := owner[b := (i, s)];
      } else {
        GrownNot(sb, blocks, inodes, owner, i);
        SpendsFails(sb, blocks, inodes, owner);
      }
    }

    /** bmap below NDIRECT. */
    method BmapDirect(i: nat, bn: nat) returns (ok: bool, addr: Uint)
      requires Owned(sb, blocks, inodes, owner) && i < |inodes| && bn < NDIRECT
      modifies this
      ensures Grown(sb, old(blocks), old(inodes), old(owner), blocks, inodes, owner, i, {bn})
      ensures ok ==> addr == inodes[i].addrs[bn] != 0
      ensures old(inodes[i].addrs[bn]) != 0 ==> ok && blocks == old(blocks) && inodes == old(inodes) && owner == old(owner)
      ensures Uses(sb, old(owner), owner, old(logged), logged, inodes[i], {})
      ensures forall a :: a in Added(old(owner), owner) ==> a in owner && owner[a] == (i, bn)
      ensures Spends(sb, old(owner), owner, ok, if old(inodes[i].addrs[bn]) == 0 then 1 else 0)
    {
      hide Uses, Added, Spends;
      SpendsNone(sb, blocks, inodes, owner);
      UsesNone(sb, owner, logged, inodes[i]);
      NoneAdded(owner);
      ok := true;
      GrownNot(sb, blocks, inodes, owner, i);
      if inodes[i].addrs[bn] == 0 {
        ok := AllocDirect(i, bn);
        GrownIn(sb, old(blocks), old(inodes), old(owner), blocks, inodes, owner, i, if ok then {bn} else {}, {bn});
      }
      addr := inodes[i].addrs[bn];
    }

    /** bmap's step that makes sure there is an indirect block. */
    method NeedIndirect(i: nat) returns (ok: bool)
      requires Owned(sb, blocks, inodes, owner) && i < |inodes|
      modifies this
      ensures Grown(sb, old(blocks), old(inodes), old(owner), blocks, inodes, owner, i, {INDIRECT})
      ensures ok ==> inodes[i].addrs[INDIRECT] != 0
      ensures old(inodes[i].addrs[INDIRECT]) != 0 ==> ok && blocks == old(blocks) && inodes == old(inodes) && owner == old(owner)
      ensures Uses(sb, old(owner), owner, old(logged), logged, inodes[i], {})
      ensures forall a :: a in Added(old(owner), owner) ==> a in owner && owner[a] == (i, INDIRECT)
      ensures Spends(sb, old(owner), owner, ok, if old(inodes[i].addrs[INDIRECT]) == 0 then 1 else 0)
    {
      hide Uses, Added, Spends;
      SpendsNone(sb, blocks, inodes, owner);
      UsesNone(sb, owner, logged, inodes[i]);
      NoneAdded(owner);
      ok := true;
      GrownNot(sb, blocks, inodes, owner, i);
      if inodes[i].addrs[INDIRECT] == 0 {
        ok := AllocDirect(i, INDIRECT);
        GrownIn(sb, old(blocks), old(inodes), old(owner), blocks, inodes, owner, i, if ok then {INDIRECT} else {}, {INDIRECT});
      }
    }

    /** bmap's step that makes sure the indirect block has an entry. */
    method NeedEntry(i: nat, s: nat) returns (ok: bool)
      requires Owned(sb, blocks, inodes, owner) && i < |inodes| && INDIRECT < s < SLOTS && inodes[i].addrs[INDIRECT] != 0
      modifies this
      ensures inodes == old(inodes)
      ensures Grown(sb, old(blocks), old(inodes), old(owner), blocks, inodes, owner, i, {s})
      ensures ok ==> AddrOf(blocks, inodes[i], s) != 0
      ensures old(AddrOf(blocks, inodes[i], s)) != 0 ==> ok && blocks == old(blocks) && owner == old(owner)
      ensures Uses(sb, old(owner), owner, old(logged), logged, inodes[i], {})
      ensures forall a :: a in Added(old(owner), owner) ==> a in owner && owner[a] == (i, s)
      ensures Spends(sb, old(owner), owner, ok, if old(AddrOf(blocks, inodes[i], s)) == 0 then 1 else 0)
    {
      hide Uses, Added, Spends;
      SpendsNone(sb, blocks, inodes, owner);
      UsesNone(sb, owner, logged, inodes[i]);
      NoneAdded(owner);
      ok := true;
      GrownNot(sb, blocks, inodes, owner, i);
      if AddrOf(blocks, inodes[i], s) == 0 {
        ok := AllocEntry(i, s);
        GrownIn(sb, old(blocks), old(inodes), old(owner), blocks, inodes, owner, i, if ok then {s} else {}, {s});
      }
    }

    /** bmap: the address of inode i's bn-th block, allocated if there is none; false where balloc panics. */
    method Bmap(i: nat, bn: nat) returns (ok: bool, addr: Uint)
      requires Owned(sb, blocks, inodes, owner) && i < |inodes| && bn < MAXFILE
      modifies this
      ensures Grown(sb, old(blocks), old(inodes), old(owner), blocks, inodes, owner, i, BmapSlots(bn))
      ensures ok ==> addr == AddrOf(blocks, inodes[i], Slot(bn)) != 0
      ensures old(AddrOf(blocks, inodes[i], Slot(bn))) != 0 ==>
                ok && blocks == old(blocks) && inodes == old(inodes) && owner == old(owner) && logged == old(logged)
      ensures Uses(sb, old(owner), owner, old(logged), logged, inodes[i], {})
      ensures ForRange(old(owner), owner, i, bn, bn + 1)
      ensures Spends(sb, old(owner), owner, ok, old(Wants(blocks, inodes[i], bn)))
    {
      hide AddrOf, Named, Found, Marked, InUse, Uses, Added, ForRange;
      AddrCases(blocks, inodes[i], Slot(bn));
      if bn < NDIRECT {
        ok, addr := BmapDirect(i, bn);
        AddrCases(blocks, inodes[i], bn);
        RangeOf(old(owner), owner, i, bn, {bn});
        UsesSame(sb, old(owner), owner, old(logged), logged, inodes[i]);
        return;
      }
      ok, addr := BmapIndirect(i, bn);
    }

    /** bmap from NDIRECT on. */
    method BmapIndirect(i: nat, bn: nat) returns (ok: bool, addr: Uint)
      requires Owned(sb, blocks, inodes, owner) && i < |inodes| && NDIRECT <= bn < MAXFILE
      modifies this
      ensures Grown(sb, old(blocks), old(inodes), old(owner), blocks, inodes, owner, i, BmapSlots(bn))
      ensures ok ==> addr == AddrOf(blocks, inodes[i], bn + 1) != 0
      ensures old(AddrOf(blocks, inodes[i], bn + 1)) != 0 ==>
                ok && blocks == old(blocks) && inodes == old(inodes) && owner == old(owner) && logged == old(logged)
      ensures Uses(sb, old(owner), owner, old(logged), logged, inodes[i], {})
      ensures ForRange(old(owner), owner, i, bn, bn + 1)
      ensures Spends(sb, old(owner), owner, ok, old(Wants(blocks, inodes[i], bn)))
    {
      hide AddrOf, Owned, Uses, Added, ForRange, Grown, Spends;
      OwnedShape(sb, blocks, inodes, owner);
      AddrCases(blocks, inodes[i], bn + 1);
      ghost var b0, in0, ow0, entry := blocks, inodes, owner, AddrOf(blocks, inodes[i], bn + 1);
      ghost var need1, need2 := if inodes[i].addrs[INDIRECT] == 0 then 1 else 0, if entry == 0 then 1 else 0;
      assert Wants(blocks, inodes[i], bn) == need2 + need1;
      addr := 0;
      ok := NeedIndirect(i);
      ghost var b1, in1, ow1, log1, ok1 := blocks, inodes, owner, logged, ok;
      assert Spends(sb, ow0, ow1, ok1, need1) && (entry != 0 ==> ok1 && b1 == b0 && in1 == in0 && ow1 == ow0);
      GrownEntry(sb, b0, in0, ow0, b1, in1, ow1, i, bn + 1);
      assert AddrOf(b1, in1[i], bn + 1) == entry;
      hide Wants;
      if ok {
        ok := NeedEntry(i, bn + 1);
        assert Spends(sb, ow1, owner, ok, need2) && (entry != 0 ==> ok && blocks == b1 && owner == ow1);
        GrownTwice(sb, b0, in0, ow0, b1, in1, ow1, blocks, inodes, owner, i, {INDIRECT}, {bn + 1});
        BmapUses(sb, b0, in0, ow0, b1, in1, ow1, blocks, inodes, owner, old(logged), log1, logged, i, bn);
        UsesSame(sb, ow0, owner, old(logged), logged, inodes[i]);
        GrownNow(sb, b0, in0, ow0, blocks, inodes, owner, i, {INDIRECT} + {bn + 1});
        addr := AddrOf(blocks, inodes[i], bn + 1);
      } else {
        RangeOf(ow0, owner, i, bn, {INDIRECT});
        GrownIn(sb, b0, in0, ow0, blocks, inodes, owner, i, {INDIRECT}, BmapSlots(bn));
      }
      SpendsBoth(sb, ow0, ow1, owner, ok1, ok, need1, need2);
    }

    /** One round of writei's loop: bmap, bread, memmove, log_write. */
    method WriteChunk(i: nat, off: nat, chunk: seq<Byte>, ghost was: seq<Byte>) returns (ok: bool)
      requires Owned(sb, blocks, inodes, owner) && i < |inodes|
      requires 0 < |chunk| <= 512 - off % 512 && off <= |was| && off + |chunk| <= MAXBYTES
      requires IsFile(blocks, inodes[i], was)
      modifies this
      ensures ok ==> |inodes| == |old(inodes)| && Owned(sb, blocks, inodes, owner) && IsFile(blocks, inodes[i], Splice(was, off, chunk))
      ensures ok ==> OnlyFile(sb, old(blocks), old(inodes), blocks, inodes, i)
      ensures ok && off < |was| ==> inodes == old(inodes)
      ensures ok ==> Wrote(sb, old(owner), owner, old(logged), logged, blocks, inodes[i], i, off / 512, off / 512 + 1, {})
      ensures ok ==> Stay(old(blocks), old(inodes)[i], blocks, inodes[i])
      ensures Spends(sb, old(owner), owner, ok, Gains(|was|, off + |chunk|))
    {
      hide AddrOf, Named, Found, Marked, InUse, Extent, InRange, Patched, Splice, Bytes, Untouched, Uses, ForRange, Stay, Wrote,
        Spends, Wants, Gains;
      assert |was| <= MAXBYTES by { FileLength(blocks, inodes[i], was); }
      WantsGains(blocks, inodes[i], |was|, off, |chunk|);
      var addr;
      ok, addr := Bmap(i, off / 512);
      if ok {
        ghost var b1, in1, ow1, log1 := blocks, inodes, owner, logged;
        GrownStay(sb, old(blocks), old(inodes), old(owner), b1, in1, ow1, i, BmapSlots(off / 512));
        ChunkReady(sb, old(blocks), old(inodes), old(owner), b1, in1, ow1, i, off, |chunk|, |was|);
        OwnedInRange(sb, b1, in1, ow1, i);
        OldBytes(sb, old(blocks), old(inodes), old(owner), b1, in1, ow1, i, BmapSlots(off / 512), was);
        SpliceMeaning(was, off, chunk);
        DataSplice(sb, b1, in1, ow1, i, off, chunk, Max(|was|, off + |chunk|), was);
        SlotOwner(sb, b1, in1, ow1, i, Slot(off / 512));
        var data := Patched(blocks[addr], off % 512, chunk);
        blocks := blocks[addr := data];
        logged := logged + {addr as nat};
        DataStay(sb, b1, in1, ow1, addr, data, i);
        StayTwice(old(blocks), old(inodes)[i], b1, in1[i], blocks, inodes[i]);
        DataKeeps(sb, b1, in1, ow1, addr, data);
        WroteOne(sb, old(owner), owner, old(logged), log1, logged, blocks, inodes[i], i, off / 512);
        forall j | 0 <= j < |inodes| && j !in {i} ensures SameAt(old(blocks), old(inodes), blocks, inodes, j) {
          GrownOthers(sb, old(blocks), old(inodes), old(owner), b1, in1, ow1, i, BmapSlots(off / 512), j);
          DataOthers(sb, b1, in1, ow1, addr, data, j);
          UntouchedTwice(old(blocks), b1, blocks, inodes[j]);
        }
      }
    }

    /** iupdate. */
    method Iupdate(i: nat)
      requires Owned(sb, blocks, inodes, owner) && i < |inodes|
      modifies this`blocks, this`logged
      ensures Owned(sb, blocks, inodes, owner)
      ensures SameBut(old(blocks), old(inodes), blocks, inodes, {})
      ensures forall j :: 0 <= j < |inodes| ==> OnDisk(sb, blocks, j) == if j == i then inodes[i] else OnDisk(sb, old(blocks), j)
      ensures logged == old(logged) + {sb.inodestart + i / IPB}
    {
      hide Owned, SameBut, OnDisk, PutInode;
      ghost var was := blocks;
      IupdateKeeps(sb, blocks, inodes, owner, i);
      var ib := sb.inodestart + i / IPB;
      blocks := blocks[ib := PutInode(blocks[ib], i % IPB, inodes[i])];
      logged := logged + {ib};
      forall j | 0 <= j < |inodes| ensures OnDisk(sb, blocks, j) == if j == i then inodes[i] else OnDisk(sb, was, j) {
        OnDiskPut(sb, was, i, inodes[i], j);
      }
    }

    /** Between calls: ownership holds, every file has exactly the blocks its size needs, and
        every inode in memory is also on disk. */
    ghost predicate Valid()
      reads this
    {
      && Owned(sb, blocks, inodes, owner)
      && (forall j :: 0 <= j < |inodes| ==> FileOk(sb, blocks, inodes, j))
    }

    /** The bytes of file i. */
    ghost function File(i: nat): (f: seq<Byte>)
      reads this
      requires Valid() && i < |inodes|
      ensures |f| == inodes[i].size
    {
      OwnedInRange(sb, blocks, inodes, owner, i);
      assert FileOk(sb, blocks, inodes, i);
      Bytes(blocks, inodes[i], inodes[i].size)
    }

    /** One turn of writei's loop. */
    method WriteMore(i: nat, off: nat, part: seq<Byte>, ghost cur: seq<Byte>, ghost b0: seq<Block>, ghost in0: seq<Inode>,
                     ghost ow0: Owner, ghost log0: set<nat>, ghost lo: nat) returns (ok: bool)
      requires Along(sb, b0, in0, blocks, inodes, owner, i, cur)
      requires i < |inodes| && Wrote(sb, ow0, owner, log0, logged, blocks, inodes[i], i, lo, off / 512, {})
      requires off <= |cur| && part != [] && |part| <= 512 - off % 512 && off + |part| <= MAXBYTES
      modifies this
      ensures ok ==> Along(sb, b0, in0, blocks, inodes, owner, i, Splice(cur, off, part))
      ensures ok && off + |part| <= |cur| ==> inodes == old(inodes)
      ensures ok ==> i < |inodes| && Wrote(sb, ow0, owner, log0, logged, blocks, inodes[i], i, lo, off / 512 + 1, {})
      ensures Spends(sb, old(owner), owner, ok, Gains(|cur|, off + |part|))
    {
      hide Owned, IsFile, Splice, OnlyFile, Wrote, Stay, NewEntry, Spends, Gains;
      ghost var b1, in1, ow1, log1 := blocks, inodes, owner, logged;
      WroteEntry(sb, blocks, inodes, ow0, owner, log0, logged, i, lo, off / 512);
      ok := WriteChunk(i, off, part, cur);
      if ok {
        WroteTwice(sb, ow0, ow1, owner, log0, log1, logged, b1, in1[i], blocks, inodes[i], i, lo, off / 512);
        OnlyFileTwice(sb, b0, in0, b1, in1, blocks, inodes, i);
      }
    }

    /** writei's loop. */
    method WriteLoop(i: nat, src: seq<Byte>, off0: nat, ghost was: seq<Byte>) returns (ok: bool)
      requires Owned(sb, blocks, inodes, owner) && i < |inodes|
      requires off0 <= |was| && off0 + |src| <= MAXBYTES
      requires IsFile(blocks, inodes[i], was)
      modifies this
      ensures ok ==> |inodes| == |old(inodes)| && Owned(sb, blocks, inodes, owner) && IsFile(blocks, inodes[i], Splice(was, off0, src))
      ensures ok ==> OnlyFile(sb, old(blocks), old(inodes), blocks, inodes, i)
      ensures ok && off0 + |src| <= |was| ==> inodes == old(inodes)
      ensures ok ==> Wrote(sb, old(owner), owner, old(logged), logged, blocks, inodes[i], i, off0 / 512, off0 / 512 + Touched(off0, |src|), {})
      ensures Spends(sb, old(owner), owner, ok, Gains(|was|, off0 + |src|))
    {
      hide Owned, IsFile, Splice, OnlyFile, Along, Spliced, Wrote, Touched, Gains, Spends;
      SpendsStart(sb, blocks, inodes, owner, |was|, off0);
      WroteBegin(sb, blocks, inodes, owner, logged, i, off0, was);
      AlongStart(sb, blocks, inodes, owner, i, was);
      SplicedStart(was, off0, src);
      var tot, off := 0, off0;
      ghost var cur := was;
      while tot < |src|
        invariant 0 <= tot <= |src| && off == off0 + tot
        invariant Along(sb, old(blocks), old(inodes), blocks, inodes, owner, i, cur) && Spliced(cur, was, off0, src, tot)
        invariant off <= |was| ==> inodes == old(inodes)
        invariant tot == 0 || tot == |src| || off % 512 == 0
        invariant i < |inodes|
        invariant Wrote(sb, old(owner), owner, old(logged), logged, blocks, inodes[i], i, off0 / 512, off0 / 512 + Touched(off0, tot), {})
        invariant Spends(sb, old(owner), owner, true, Gains(|was|, off))
      {
        var m := if |src| - tot < 512 - off % 512 then |src| - tot else 512 - off % 512;
        ghost var part := src[tot..tot + m];
        SplicedStep(cur, was, off0, src, tot, m);
        TouchedNext(off0, tot, m);
        ghost var ow1 := owner;
        ok := WriteMore(i, off, src[tot..tot + m], cur, old(blocks), old(inodes), old(owner), old(logged), off0 / 512);
        SpendsMore(sb, old(owner), ow1, owner, ok, |was|, off, off + m, off0 + |src|);
        if !ok {
          return;
        }
        cur := Splice(cur, off, part);
        tot, off := tot + m, off + m;
      }
      SplicedEnd(cur, was, off0, src);
      AlongEnd(sb, old(blocks), old(inodes), blocks, inodes, owner, i, cur);
      ok := true;
    }

    /** writei on a file or directory: -1 for a bad range, else the file is spliced; `ok` is false
        where balloc panics.  A size that grew, and with it every new address, is on disk. */
    method Writei(i: nat, src: seq<Byte>, off: Uint) returns (ok: bool, r: int)
      requires Valid() && i < |inodes| && |src| < WORD_RANGE
      modifies this
      ensures ok ==> Valid() && |inodes| == |old(inodes)|
      ensures ok ==> SameBut(old(blocks), old(inodes), blocks, inodes, {i})
      ensures ok ==> r == if BadRange(old(inodes[i].size), off, |src|) then -1 else |src|
      ensures r == -1 ==> ok && blocks == old(blocks) && inodes == old(inodes) && owner == old(owner)
      ensures ok && r != -1 ==> off <= old(inodes[i].size) && File(i) == Splice(old(File(i)), off, src)
      ensures ok ==> inodes[i] == old(inodes[i]).(addrs := inodes[i].addrs, size := inodes[i].size)
      ensures r == -1 ==> logged == old(logged)
      ensures ok && r != -1 ==>
        Wrote(sb, old(owner), owner, old(logged), logged, blocks, inodes[i], i, off / 512, off / 512 + Touched(off, |src|),
              if inodes[i].size > old(inodes[i].size) then {sb.inodestart + i / IPB} else {})
      ensures old(BadRange(inodes[i].size, off, |src|)) ==> ok
      ensures old(!BadRange(inodes[i].size, off, |src|)) ==>
        Spends(sb, old(owner), owner, ok, Gains(old(inodes[i].size), off as int + |src|))
    {
      hide Owned, IsFile, FileOk, Splice, OnlyFile, SameBut, OnDisk, Extent, InRange, Wrote, Touched, Stay, Bytes, Spends, Gains;
      ghost var b0, in0, ow0 := blocks, inodes, owner;
      OwnedShape(sb, blocks, inodes, owner);
      InodeBlock(sb, i);
      ValidFile(sb, blocks, inodes, owner, i);
      if off > inodes[i].size || Add32(off, |src|) < off || Add32(off, |src|) > MAXBYTES {
        SameSelf(blocks, inodes, {i});
        return true, -1;
      }
      ghost var was := File(i);
      ok := WriteLoop(i, src, off, was);
      if !ok {
        return false, 0;
      }
      r := |src|;
      OwnedShape(sb, blocks, inodes, owner);
      SpliceLength(was, off, src);
      ReadyToGrow(sb, b0, in0, blocks, inodes, owner, i, Splice(was, off, src));
      if |src| > 0 && off as int + |src| > inodes[i].size {
        ghost var b1, in1, log1 := blocks, inodes, logged;
        forall j | 0 <= j < |inodes| ensures sb.inodestart + j / IPB < sb.size {
          InodeBlock(sb, j);
        }
        Grow(i, off as int + |src|);
        WroteMore(sb, ow0, owner, old(logged), log1, b1, in1[i], blocks, inodes[i], i, off / 512, off / 512 + Touched(off, |src|),
                  {sb.inodestart + i / IPB});
        OwnedShape(sb, blocks, inodes, owner);
        AfterGrow(sb, b0, in0, ow0, b1, in1, blocks, inodes, owner, i, Splice(was, off, src));
      } else {
        AfterLoop(sb, b0, in0, ow0, blocks, inodes, owner, i, Splice(was, off, src));
      }
    }

    /** The end of writei: a larger size, and iupdate. */
    method Grow(i: nat, len: Uint)
      requires Owned(sb, blocks, inodes, owner) && i < |inodes| && InRange(blocks, inodes[i]) && Extent(blocks, inodes[i], len)
      modifies this`blocks, this`inodes, this`logged
      ensures Owned(sb, blocks, inodes, owner) && |inodes| == |old(inodes)|
      ensures inodes == old(inodes)[i := old(inodes[i]).(size := len)]
      ensures InRange(blocks, inodes[i]) && FileOk(sb, blocks, inodes, i)
      ensures Bytes(blocks, inodes[i], len) == old(Bytes(blocks, inodes[i], len))
      ensures SameBut(old(blocks), old(inodes), blocks, inodes, {i})
      ensures forall j :: 0 <= j < |inodes| && j != i ==> OnDisk(sb, blocks, j) == OnDisk(sb, old(blocks), j)
      ensures logged == old(logged) + {sb.inodestart + i / IPB}
      ensures Stay(old(blocks), old(inodes)[i], blocks, inodes[i])
    {
      Resized(sb, blocks, inodes, owner, i, len);
      inodes := inodes[i := inodes[i].(size := len)];
      Iupdate(i);
      assert SameAt(old(blocks), inodes, blocks, inodes, i);
      SameFile(old(blocks), blocks, inodes[i], len);
    }

    /** One round of readi's loop: below the size bmap never allocates, so nothing changes. */
    method ReadChunk(i: nat, off: nat, m: nat, ghost f: seq<Byte>) returns (part: seq<Byte>)
      requires Owned(sb, blocks, inodes, owner) && i < |inodes| && IsFile(blocks, inodes[i], f)
      requires 0 < m <= 512 - off % 512 && off + m <= |f|
      modifies this
      ensures blocks == old(blocks) && inodes == old(inodes) && owner == old(owner)
      ensures part == f[off..off + m]
    {
      hide AddrOf, Named, Found, Marked, InUse, InRange, Bytes;
      Allocated(blocks, inodes[i], |f|, off);
      var _, addr := Bmap(i, off / 512);
      SlotOwner(sb, blocks, inodes, owner, i, Slot(off / 512));
      part := blocks[addr][off % 512..off % 512 + m];
      SameBlockBytes(blocks, inodes[i], f, off, m, part);
    }

    /** readi's loop. */
    method ReadLoop(i: nat, off0: nat, n: nat, ghost f: seq<Byte>) returns (dst: seq<Byte>)
      requires Owned(sb, blocks, inodes, owner) && i < |inodes| && IsFile(blocks, inodes[i], f)
      requires off0 + n <= |f|
      modifies this
      ensures blocks == old(blocks) && inodes == old(inodes) && owner == old(owner)
      ensures dst == f[off0..off0 + n]
    {
      hide Owned, IsFile;
      dst := [];
      var tot, off := 0, off0;
      while tot < n
        invariant 0 <= tot <= n && off == off0 + tot
        invariant blocks == old(blocks) && inodes == old(inodes) && owner == old(owner)
        invariant dst == f[off0..off]
      {
        var m := if n - tot < 512 - off % 512 then n - tot else 512 - off % 512;
        var part := ReadChunk(i, off, m, f);
        SliceMore(f, off0, off, m);
        dst := dst + part;
        tot, off := tot + m, off + m;
      }
    }

    /** readi on a file or directory: -1 for a bad range, else the slice, cut at the end of file. */
    method Readi(i: nat, off: Uint, n0: Uint) returns (r: int, dst: seq<Byte>)
      requires Valid() && i < |inodes|
      modifies this
      ensures blocks == old(blocks) && inodes == old(inodes) && owner == old(owner) && Valid()
      ensures r == -1 <==> off > inodes[i].size || off as int + n0 >= WORD_RANGE
      ensures r != -1 ==> dst == File(i)[off..if off as int + n0 > inodes[i].size then inodes[i].size else off + n0]
      ensures r != -1 ==> r == |dst|
    {
      dst := [];
      if off > inodes[i].size || Add32(off, n0) < off {
        return -1, [];
      }
      var n := n0 as int;
      if off as int + n > inodes[i].size {
        n := inodes[i].size - off;
      }
      assert FileOk(sb, blocks, inodes, i);
      OwnedInRange(sb, blocks, inodes, owner, i);
      dst := ReadLoop(i, off, n, File(i));
      r := n;
    }

    /** One `if(addr) bfree(addr)` of itrunc, for slot s of the inode as it was. */
    method FreeSlot(i: nat, s: nat, addr: Uint, ghost b0: seq<Block>, ghost in0: seq<Inode>, ghost ow0: Owner, ghost slots: set<nat>)
      returns (ok: bool)
      requires Owned(sb, b0, in0, ow0) && i < |in0| && s in slots && forall t :: t in slots ==> t < SLOTS
      requires SameOutsideBitmap(sb, b0, blocks) && Marked(sb, blocks, Without(ow0, i), BlocksIn(b0, in0[i], slots))
      requires addr == AddrOf(b0, in0[i], s)
      modifies this`blocks, this`logged
      ensures ok && SameOutsideBitmap(sb, b0, blocks)
      ensures Marked(sb, blocks, Without(ow0, i), BlocksIn(b0, in0[i], slots - {s}))
    {
      ok := true;
      if addr != 0 {
        TruncStep(sb, b0, in0, ow0, i, blocks, slots, s);
        ok := Bfree(addr);
      } else {
        assert BlocksIn(b0, in0[i], slots - {s}) == BlocksIn(b0, in0[i], slots);
      }
    }

    /** itrunc: returns exactly inode i's blocks, without ever freeing a free block. */
    method Itrunc(i: nat) returns (ok: bool)
      requires Valid() && i < |inodes|
      modifies this
      ensures ok && Valid() && |inodes| == |old(inodes)|
      ensures File(i) == [] && inodes[i] == Emptied(old(inodes)[i])
      ensures owner == Without(old(owner), i)
      ensures SameBut(old(blocks), old(inodes), blocks, inodes, {i})
    {
      hide AddrOf, Named, Found, Marked, BlocksIn, GetInode;
      ghost var b0, in0, ow0 := blocks, inodes, owner;
      BeginTrunc(sb, b0, in0, ow0, i);
      ghost var slots := UpTo(SLOTS);
      ok := true;
      var k := 0;
      while k < NDIRECT
        invariant 0 <= k <= NDIRECT && ok && |inodes| == |in0| && owner == ow0
        invariant inodes == in0[i := in0[i].(addrs := inodes[i].addrs)]
        invariant forall t :: 0 <= t <= NDIRECT ==> inodes[i].addrs[t] == if t < k then 0 else in0[i].addrs[t]
        invariant forall t: nat :: t in slots <==> k <= t < SLOTS
        invariant SameOutsideBitmap(sb, b0, blocks) && Marked(sb, blocks, Without(ow0, i), BlocksIn(b0, in0[i], slots))
      {
        AddrCases(b0, in0[i], k);
        ok := FreeSlot(i, k, inodes[i].addrs[k], b0, in0, ow0, slots);
        inodes := inodes[i := inodes[i].(addrs := inodes[i].addrs[k := 0])];
        slots := slots - {k};
        k := k + 1;
      }
      ok := FreeIndirect(i, b0, in0, ow0, slots);
      EndTrunc(sb, b0, in0, ow0, i, blocks);
      inodes := inodes[i := inodes[i].(addrs := inodes[i].addrs[INDIRECT := 0], size := 0)];
      assert inodes[i].addrs == Emptied(in0[i]).addrs;
      assert inodes == in0[i := Emptied(in0[i])];
      owner := Without(ow0, i);
      ghost var b1 := blocks;
      Iupdate(i);
      FinishTrunc(sb, b0, in0, ow0, b1, blocks, inodes, owner, i);
    }

    /** itrunc's second half: the entries of the indirect block, then the indirect block itself. */
    method FreeIndirect(i: nat, ghost b0: seq<Block>, ghost in0: seq<Inode>, ghost ow0: Owner, ghost slots0: set<nat>)
      returns (ok: bool)
      requires Owned(sb, b0, in0, ow0) && i < |in0| == |inodes| && inodes[i].addrs[INDIRECT] == in0[i].addrs[INDIRECT]
      requires forall t: nat :: t in slots0 <==> NDIRECT <= t < SLOTS
      requires SameOutsideBitmap(sb, b0, blocks) && Marked(sb, blocks, Without(ow0, i), BlocksIn(b0, in0[i], slots0))
      modifies this`blocks, this`logged
      ensures ok && SameOutsideBitmap(sb, b0, blocks) && Marked(sb, blocks, Without(ow0, i), {})
    {
      hide Owned, Marked, BlocksIn, AddrOf, Word, ValidSb;
      ok := true;
      ghost var slots := slots0;
      var ind := inodes[i].addrs[INDIRECT];
      IndirectKept(sb, b0, in0, ow0, blocks, i);
      if ind != 0 {
        var a := blocks[ind];
        var j := 0;
        while j < NINDIRECT
          invariant 0 <= j <= NINDIRECT && ok
          invariant forall t: nat :: t in slots <==> t == INDIRECT || INDIRECT + 1 + j <= t < SLOTS
          invariant SameOutsideBitmap(sb, b0, blocks) && Marked(sb, blocks, Without(ow0, i), BlocksIn(b0, in0[i], slots))
        {
          EntryAddr(b0, in0[i], j);
          ok := FreeSlot(i, INDIRECT + 1 + j, Word(a, j), b0, in0, ow0, slots);
          slots := slots - {INDIRECT + 1 + j};
          j := j + 1;
        }
        AddrCases(b0, in0[i], INDIRECT);
        ok := FreeSlot(i, INDIRECT, ind, b0, in0, ow0, slots);
        slots := slots - {INDIRECT};
        assert slots == {};
        NoBlocks(b0, in0[i], slots);
      } else {
        NoBlocks(b0, in0[i], slots);
      }
    }

    /** filewrite, k bytes on: file i, which was f, is spliced that far and has spent the blocks for it. */
    ghost predicate Partway(i: nat, f: seq<Byte>, addr: seq<Byte>, off0: nat, k: nat, b0: seq<Block>, in0: seq<Inode>, ow0: Owner)
      reads this
    {
      && Valid() && i < |inodes| == |in0| && k <= |addr| && SameBut(b0, in0, blocks, inodes, {i})
      && (k == 0 ==> File(i) == f) && (k > 0 ==> off0 <= |f| && off0 + k <= MAXBYTES)
      && (off0 <= |f| ==>
            && Spliced(File(i), f, off0, addr, k) && inodes[i].size == Max(|f|, off0 + k)
            && Spends(sb, ow0, owner, true, Gains(|f|, off0 + k)))
    }

    /** One chunk of filewrite, in a transaction of its own. */
    method WritePiece(i: nat, addr: seq<Byte>, off0: Uint, k: nat, n1: nat, ghost f: seq<Byte>,
                      ghost b0: seq<Block>, ghost in0: seq<Inode>, ghost ow0: Owner) returns (ok: bool, r: int)
      requires Partway(i, f, addr, off0, k, b0, in0, ow0) && 0 < n1 && k + n1 <= |addr| < 0x8000_0000 && off0 as int + k < WORD_RANGE
      modifies this
      ensures ok ==> r == if BadRange(|f|, off0, k + n1) then -1 else n1
      ensures ok ==> Partway(i, f, addr, off0, if r == -1 then k else k + n1, b0, in0, ow0)
      ensures !ok ==> !BadRange(|f|, off0, k + n1) && Room(sb, ow0) < Gains(|f|, off0 + k + n1)
    {
      hide Owned, FileOk, Bytes, Splice, SameBut, Spliced, Spends, Gains, Wrote, Touched;
      ghost var b1, in1, ow1, was := blocks, inodes, owner, File(i);
      if off0 <= |f| {
        SplicedStep(was, f, off0, addr, k, n1);
      }
      logged := {};
      ok, r := Writei(i, addr[k..k + n1], off0 as int + k);
      if off0 <= |f| && !BadRange(|f|, off0, k + n1) {
        SpendsMore(sb, ow0, ow1, owner, ok, |f|, off0 as int + k, off0 as int + k + n1, off0 as int + k + n1);
        SpendsRoom(sb, ow0, owner, ok, Gains(|f|, off0 as int + k + n1));
      }
      if ok {
        SameTwice(b0, in0, b1, in1, blocks, inodes, {i});
      }
    }

    /** filewrite on an inode: chunks of at most CHUNK bytes, each its own transaction.  It returns
        the length and leaves the file spliced as one whole write would exactly when the whole
        range is good; otherwise it returns -1 with the chunks before the first bad one written.
        It panics for want of blocks only if the whole write, or as much of it as fits a file, needs
        more than there are, and for a good range exactly then. */
    method Filewrite(i: nat, addr: seq<Byte>, off0: Uint) returns (ok: bool, r: int, off: nat)
      requires Valid() && i < |inodes| && |addr| < 0x8000_0000
      modifies this
      ensures ok ==> Valid() && |inodes| == |old(inodes)| && SameBut(old(blocks), old(inodes), blocks, inodes, {i})
      ensures ok ==> off0 <= off <= off0 + |addr|
      ensures ok ==> (r == |addr| <==> addr == [] || !BadRange(old(inodes[i].size), off0, |addr|))
      ensures ok ==> (r == |addr| && off == off0 + |addr|) || (r == -1 && BadRange(old(inodes[i].size), off0, off - off0 + CHUNK) && (off - off0) % 6656 == 0)
      ensures ok && off0 > old(inodes[i].size) ==> File(i) == old(File(i)) && off == off0
      ensures ok && off0 <= old(inodes[i].size) ==> File(i) == Splice(old(File(i)), off0, addr[..off - off0])
      ensures old(!BadRange(inodes[i].size, off0, |addr|)) ==> Spends(sb, old(owner), owner, ok, Gains(old(inodes[i].size), off0 + |addr|))
      ensures Room(sb, old(owner)) >= Gains(old(inodes[i].size), MAXBYTES) ==> ok
    {
      hide Owned, FileOk, Bytes, Splice, SameBut, Spliced, Spends, Gains;
      ok, r, off := true, 0, off0;
      ghost var f, b0, in0, ow0 := File(i), blocks, inodes, owner;
      SameOwned(sb, blocks, inodes, owner, {i});
      if off0 <= |f| {
        SplicedStart(f, off0, addr);
        SpendsStart(sb, blocks, inodes, owner, |f|, off0);
      }
      var k := 0;
      while k < |addr|
        invariant off == off0 + k && Partway(i, f, addr, off0, k, b0, in0, ow0)
        invariant k < |addr| ==> k % 6656 == 0
      {
        var n1 := if |addr| - k > CHUNK then CHUNK else |addr| - k;
        OffsetFits(off0, k, |f|);
        ok, r := WritePiece(i, addr, off0, k, n1, f, b0, in0, ow0);
        if !ok {
          GainsLess(sb, ow0, owner, |f|, off0 + k + n1, off0 + |addr|);
          return;
        }
        if r < 0 {
          if off0 <= |f| {
            SplicedIs(File(i), f, off0, addr, k);
          }
          return true, -1, off;
        }
        off := off + r;
        k := k + r;
      }
      if off0 <= |f| {
        SplicedIs(File(i), f, off0, addr, k);
      }
      r := |addr|;
    }
  }

  lemma OffsetFits(off: Uint, k: nat, len: nat)
    requires k > 0 ==> off + k <= MAXBYTES
    ensures off as int + k < WORD_RANGE
  {
  }

  lemma SpendsRoom(sb: Superblock, ow0: Owner, ow: Owner, ok: bool, k: nat)
    requires Spends(sb, ow0, ow, ok, k)
    ensures !ok ==> Room(sb, ow0) < k
  {
  }

  lemma GainsLess(sb: Superblock, ow0: Owner, ow: Owner, len: nat, mid: nat, end: nat)
    requires Room(sb, ow0) < Gains(len, mid) && mid <= end && mid <= MAXBYTES
    ensures Spends(sb, ow0, ow, false, Gains(len, end)) && Room(sb, ow0) < Gains(len, MAXBYTES)
  {
    GainsMore(len, mid, end);
    GainsMore(len, mid, MAXBYTES);
  }

  lemma InGroup(b: nat, bi: nat)
    requires b % 4096 == 0 && bi < 4096
    ensures (b + bi) / 4096 == b / 4096 && (b + bi) % 4096 == bi
  {
  }

  /** An indirect block made or found holds the entries there were. */
  lemma GrownEntry(sb: Superblock, b0: seq<Block>, in0: seq<Inode>, ow0: Owner, b1: seq<Block>, in1: seq<Inode>, ow1: Owner, i: nat, s: nat)
    requires Grown(sb, b0, in0, ow0, b1, in1, ow1, i, {INDIRECT}) && INDIRECT < s < SLOTS
    ensures Owned(sb, b1, in1, ow1) && i < |in0| == |in1| && in0[i].addrs[INDIRECT] < |b0| && in1[i].addrs[INDIRECT] < |b1|
    ensures AddrOf(b1, in1[i], s) == AddrOf(b0, in0[i], s)
  {
    hide AddrOf;
  }

  lemma GrownNow(sb: Superblock, b0: seq<Block>, in0: seq<Inode>, ow0: Owner, b1: seq<Block>, in1: seq<Inode>, ow1: Owner, i: nat, slots: set<nat>)
    requires Grown(sb, b0, in0, ow0, b1, in1, ow1, i, slots)
    ensures i < |in1| && in1[i].addrs[INDIRECT] < |b1|
  {
  }

  lemma SpendsBoth(sb: Superblock, ow0: Owner, ow1: Owner, ow2: Owner, ok1: bool, ok2: bool, k1: nat, k2: nat)
    requires Spends(sb, ow0, ow1, ok1, k1)
    requires if ok1 then Spends(sb, ow1, ow2, ok2, k2) else !ok2
    ensures Spends(sb, ow0, ow2, ok2, k2 + k1)
  {
  }

  lemma SpendsStart(sb: Superblock, blocks: seq<Block>, inodes: seq<Inode>, owner: Owner, len: nat, off: nat)
    requires Owned(sb, blocks, inodes, owner) && off <= len
    ensures Spends(sb, owner, owner, true, Gains(len, off))
  {
    SpendsNone(sb, blocks, inodes, owner);
  }

  /** A write that got as far as `off` and goes on to `mid`, of `end` in all. */
  lemma SpendsMore(sb: Superblock, ow0: Owner, ow1: Owner, ow2: Owner, ok: bool, len: nat, off: nat, mid: nat, end: nat)
    requires Spends(sb, ow0, ow1, true, Gains(len, off)) && Spends(sb, ow1, ow2, ok, Gains(Max(len, off), mid)) && off <= mid <= end
    ensures ok ==> Spends(sb, ow0, ow2, true, Gains(len, mid))
    ensures !ok ==> Spends(sb, ow0, ow2, false, Gains(len, mid)) && Spends(sb, ow0, ow2, false, Gains(len, end))
  {
    GainsMore(len, off, mid);
    GainsMore(len, mid, end);
    hide Gains;
  }

  lemma ValidFile(sb: Superblock, blocks: seq<Block>, inodes: seq<Inode>, owner: Owner, i: nat)
    requires Owned(sb, blocks, inodes, owner) && i < |inodes|
    requires inodes[i].addrs[INDIRECT] < |blocks| && sb.inodestart + i / IPB < |blocks| && FileOk(sb, blocks, inodes, i)
    ensures InRange(blocks, inodes[i]) && inodes[i].size <= MAXBYTES
    ensures IsFile(blocks, inodes[i], Bytes(blocks, inodes[i], inodes[i].size))
  {
    OwnedInRange(sb, blocks, inodes, owner, i);
  }

  /** Between writei's loop and iupdate: memory is ahead of the disk by the new addresses only. */
  lemma ReadyToGrow(sb: Superblock, b0: seq<Block>, in0: seq<Inode>, b1: seq<Block>, in1: seq<Inode>, ow1: Owner, i: nat, f: seq<Byte>)
    requires Owned(sb, b1, in1, ow1) && i < |in1| == |in0| && IsFile(b1, in1[i], f) && OnlyFile(sb, b0, in0, b1, in1, i)
    ensures in1[i].addrs[INDIRECT] < |b1| && InRange(b1, in1[i]) && |f| <= MAXBYTES && Extent(b1, in1[i], |f|) && Bytes(b1, in1[i], |f|) == f
    ensures in1[i] == in0[i].(addrs := in1[i].addrs)
  {
    FileLength(b1, in1[i], f);
  }

  ghost predicate AllFilesOk(sb: Superblock, blocks: seq<Block>, inodes: seq<Inode>) {
    forall j :: 0 <= j < |inodes| ==>
      inodes[j].addrs[INDIRECT] < |blocks| && sb.inodestart + j / IPB < |blocks| && FileOk(sb, blocks, inodes, j)
  }

  lemma SameInodeBlocks(sb: Superblock, b0: seq<Block>, in0: seq<Inode>, b1: seq<Block>, in1: seq<Inode>, i: nat, j: nat)
    requires ValidSb(sb) && OnlyFile(sb, b0, in0, b1, in1, i) && |b0| == sb.size && j < sb.ninodes
    ensures sb.inodestart + j / IPB < |b0| == |b1| && OnDisk(sb, b1, j) == OnDisk(sb, b0, j)
  {
    InodeBlock(sb, j);
  }

  /** writei's end when the size stays: nothing but contents changed. */
  lemma AfterLoop(sb: Superblock, b0: seq<Block>, in0: seq<Inode>, ow0: Owner, b1: seq<Block>, in1: seq<Inode>, ow1: Owner, i: nat, f: seq<Byte>)
    requires Owned(sb, b0, in0, ow0) && AllFilesOk(sb, b0, in0) && i < |in0| && in1 == in0
    requires Owned(sb, b1, in1, ow1) && IsFile(b1, in1[i], f) && OnlyFile(sb, b0, in0, b1, in1, i) && |f| == in1[i].size
    ensures AllFilesOk(sb, b1, in1) && SameBut(b0, in0, b1, in1, {i})
    ensures in1[i].addrs[INDIRECT] < |b1| && InRange(b1, in1[i]) && |f| <= MAXBYTES && Bytes(b1, in1[i], |f|) == f
  {
    FileLength(b1, in1[i], f);
    forall j | 0 <= j < |in0| ensures sb.inodestart + j / IPB < |b0| == |b1| && OnDisk(sb, b1, j) == OnDisk(sb, b0, j) {
      SameInodeBlocks(sb, b0, in0, b1, in1, i, j);
    }
    hide OnDisk;
    AllOk(sb, b0, in0, ow0, b1, in1, i);
  }

  /** writei's end when the size grew and iupdate has written the inode. */
  lemma AfterGrow(sb: Superblock, b0: seq<Block>, in0: seq<Inode>, ow0: Owner, b1: seq<Block>, in1: seq<Inode>,
                  b2: seq<Block>, in2: seq<Inode>, ow2: Owner, i: nat, f: seq<Byte>)
    requires Owned(sb, b0, in0, ow0) && AllFilesOk(sb, b0, in0) && i < |in0| && OnlyFile(sb, b0, in0, b1, in1, i)
    requires Owned(sb, b2, in2, ow2) && |in2| == |in1| && SameBut(b1, in1, b2, in2, {i})
    requires forall j :: 0 <= j < |in2| ==> sb.inodestart + j / IPB < |b1| == |b2|
    requires forall j :: 0 <= j < |in2| && j != i ==> OnDisk(sb, b2, j) == OnDisk(sb, b1, j)
    requires in2[i].addrs[INDIRECT] < |b2| && FileOk(sb, b2, in2, i)
    ensures AllFilesOk(sb, b2, in2) && SameBut(b0, in0, b2, in2, {i})
  {
    forall j | 0 <= j < |in0| && j != i ensures sb.inodestart + j / IPB < |b0| == |b1| && OnDisk(sb, b1, j) == OnDisk(sb, b0, j) {
      SameInodeBlocks(sb, b0, in0, b1, in1, i, j);
    }
    hide OnDisk;
    SameTwice(b0, in0, b1, in1, b2, in2, {i});
    AllOk(sb, b0, in0, ow0, b2, in2, i);
  }

  lemma OwnedShape(sb: Superblock, blocks: seq<Block>, inodes: seq<Inode>, owner: Owner)
    requires Owned(sb, blocks, inodes, owner)
    ensures ValidSb(sb) && |blocks| == sb.size && |inodes| == sb.ninodes
    ensures forall j :: 0 <= j < |inodes| ==> inodes[j].addrs[INDIRECT] < |blocks|
  {
  }

  lemma SameOwned(sb: Superblock, blocks: seq<Block>, inodes: seq<Inode>, owner: Owner, except: set<nat>)
    requires Owned(sb, blocks, inodes, owner)
    ensures SameBut(blocks, inodes, blocks, inodes, except)
  {
    OwnedShape(sb, blocks, inodes, owner);
    SameSelf(blocks, inodes, except);
  }

  /** Writing an inode's own block disturbs no file. */
  lemma IupdateKeeps(sb: Superblock, blocks: seq<Block>, inodes: seq<Inode>, owner: Owner, i: nat)
    requires Owned(sb, blocks, inodes, owner) && i < |inodes|
    ensures ValidSb(sb) && |inodes| == sb.ninodes && sb.inodestart + i / IPB < |blocks| == sb.size
    ensures var after := blocks[sb.inodestart + i / IPB := PutInode(blocks[sb.inodestart + i / IPB], i % IPB, inodes[i])];
      Owned(sb, after, inodes, owner) && SameBut(blocks, inodes, after, inodes, {})
  {
    OwnedShape(sb, blocks, inodes, owner);
    hide Owned, PutInode, Untouched;
    InodeBlock(sb, i);
    InodeBlockKeeps(sb, blocks, inodes, owner, sb.inodestart + i / IPB, PutInode(blocks[sb.inodestart + i / IPB], i % IPB, inodes[i]));
  }

  lemma OnDiskPut(sb: Superblock, blocks: seq<Block>, i: nat, ino: Inode, j: nat)
    requires ValidSb(sb) && |blocks| == sb.size && i < sb.ninodes && j < sb.ninodes && sb.inodestart + i / IPB < |blocks|
    ensures OnDisk(sb, blocks[sb.inodestart + i / IPB := PutInode(blocks[sb.inodestart + i / IPB], i % IPB, ino)], j)
      == if j == i then ino else OnDisk(sb, blocks, j)
  {
    InodeBlock(sb, i);
    InodeBlock(sb, j);
    if j / IPB == i / IPB {
      InodeRoundTrip(blocks[sb.inodestart + i / IPB], i % IPB, ino, j % IPB);
    }
    hide PutInode, GetInode;
  }

  /** A write in progress: inode i reads as cur, every other file as at the start. */
  ghost predicate Along(sb: Superblock, b0: seq<Block>, in0: seq<Inode>, blocks: seq<Block>, inodes: seq<Inode>,
                        owner: Owner, i: nat, cur: seq<Byte>) {
    i < |inodes| == |in0| && Owned(sb, blocks, inodes, owner) && IsFile(blocks, inodes[i], cur)
    && OnlyFile(sb, b0, in0, blocks, inodes, i)
  }

  lemma AlongStart(sb: Superblock, blocks: seq<Block>, inodes: seq<Inode>, owner: Owner, i: nat, cur: seq<Byte>)
    requires Owned(sb, blocks, inodes, owner) && i < |inodes| && IsFile(blocks, inodes[i], cur)
    ensures Along(sb, blocks, inodes, blocks, inodes, owner, i, cur)
  {
    SameSelf(blocks, inodes, {i});
    hide IsFile;
  }

  lemma AlongEnd(sb: Superblock, b0: seq<Block>, in0: seq<Inode>, blocks: seq<Block>, inodes: seq<Inode>, owner: Owner, i: nat, cur: seq<Byte>)
    requires Along(sb, b0, in0, blocks, inodes, owner, i, cur)
    ensures i < |inodes| == |in0| && Owned(sb, blocks, inodes, owner) && IsFile(blocks, inodes[i], cur)
    ensures OnlyFile(sb, b0, in0, blocks, inodes, i)
  {
  }

  /** ((LOGSIZE-1-1-2) / 2) * 512. */
  const CHUNK: nat := 6656

  lemma EntryAddr(blocks: seq<Block>, ino: Inode, j: nat)
    requires 0 < ino.addrs[INDIRECT] < |blocks| && j < NINDIRECT
    ensures AddrOf(blocks, ino, INDIRECT + 1 + j) == Word(blocks[ino.addrs[INDIRECT]], j)
  {
  }

  /** The indirect block is where it was: freeing data blocks writes only the bitmap. */
  lemma IndirectKept(sb: Superblock, b0: seq<Block>, in0: seq<Inode>, ow0: Owner, blocks: seq<Block>, i: nat)
    requires Owned(sb, b0, in0, ow0) && i < |in0| && SameOutsideBitmap(sb, b0, blocks)
    ensures in0[i].addrs[INDIRECT] < |b0| == |blocks| == sb.size && ValidSb(sb)
    ensures in0[i].addrs[INDIRECT] != 0 ==> blocks[in0[i].addrs[INDIRECT]] == b0[in0[i].addrs[INDIRECT]]
  {
    if in0[i].addrs[INDIRECT] != 0 {
      IndirectOwned(sb, b0, in0, ow0, i);
    }
  }

  lemma NoBlocks(blocks: seq<Block>, ino: Inode, slots: set<nat>)
    requires ino.addrs[INDIRECT] < |blocks| && forall s :: s in slots ==> INDIRECT <= s < SLOTS
    requires slots == {} || ino.addrs[INDIRECT] == 0
    ensures BlocksIn(blocks, ino, slots) == {}
  {
  }

  lemma Allocated(blocks: seq<Block>, ino: Inode, len: nat, off: nat)
    requires ino.addrs[INDIRECT] < |blocks| && Extent(blocks, ino, len) && off < len
    ensures off / 512 < MAXFILE && AddrOf(blocks, ino, Slot(off / 512)) != 0
  {
    hide AddrOf;
    assert off / 512 * 512 < len;
  }

  lemma SameBlockBytes(blocks: seq<Block>, ino: Inode, f: seq<Byte>, off: nat, m: nat, part: seq<Byte>)
    requires ino.addrs[INDIRECT] < |blocks| && InRange(blocks, ino) && |f| <= MAXBYTES && f == Bytes(blocks, ino, |f|)
    requires off + m <= |f| && m <= 512 - off % 512 && 0 < m
    requires part == blocks[AddrOf(blocks, ino, Slot(off / 512))][off % 512..off % 512 + m]
    ensures part == f[off..off + m]
  {
    hide AddrOf;
    forall k | 0 <= k < m ensures part[k] == f[off..off + m][k] {
      assert (off + k) / 512 == off / 512 && (off + k) % 512 == off % 512 + k;
      assert f[off + k] == ByteAt(blocks, ino, off + k);
    }
  }

  lemma FinishTrunc(sb: Superblock, b0: seq<Block>, in0: seq<Inode>, ow0: Owner, b1: seq<Block>, b2: seq<Block>,
                    in2: seq<Inode>, ow2: Owner, i: nat)
    requires Owned(sb, b0, in0, ow0) && i < |in0| && SameOutsideBitmap(sb, b0, b1)
    requires forall j :: 0 <= j < |in0| ==> FileOk(sb, b0, in0, j)
    requires forall j :: 0 <= j < |in0| && j != i ==> Untouched(b0, b1, in0[j])
    requires in2 == in0[i := Emptied(in0[i])] && Owned(sb, b2, in2, ow2) && SameBut(b1, in2, b2, in2, {})
    requires forall j :: 0 <= j < |in2| ==> OnDisk(sb, b2, j) == if j == i then in2[i] else OnDisk(sb, b1, j)
    ensures forall j :: 0 <= j < |in2| ==> FileOk(sb, b2, in2, j)
    ensures SameBut(b0, in0, b2, in2, {i})
  {
    assert forall s :: 0 <= s < SLOTS ==> AddrOf(b2, in2[i], s) == 0;
    hide AddrOf, Named, Found, Marked, GetInode;
    forall j: nat | j < |in0| && j !in {i} ensures SameAt(b0, in0, b2, in2, j) {
      assert SameAt(b1, in2, b2, in2, j);
      UntouchedTwice(b0, b1, b2, in0[j]);
    }
    forall j | 0 <= j < |in0| && j != i ensures OnDisk(sb, b2, j) == OnDisk(sb, b0, j) {
      InodeBlock(sb, j);
    }
    InodeBlock(sb, i);
    AllOk(sb, b0, in0, ow0, b2, in2, i);
  }

  /** Addition of two uints. */
  function Add32(a: Uint, b: Uint): (r: Uint)
    ensures r == if a as int + b < WORD_RANGE then a + b else a as int + b - WORD_RANGE
  {
    (a as int + b) % 0x1_0000_0000
  }

  predicate BadRange(size: nat, off: nat, n: nat) {
    off > size || off + n > MAXBYTES
  }

  /** A new size in memory: same blocks, same bytes. */
  lemma Resized(sb: Superblock, blocks: seq<Block>, inodes: seq<Inode>, owner: Owner, i: nat, len: Uint)
    requires Owned(sb, blocks, inodes, owner) && i < |inodes| && InRange(blocks, inodes[i]) && Extent(blocks, inodes[i], len)
    ensures var ino := inodes[i].(size := len);
            && Owned(sb, blocks, inodes[i := ino], owner) && InRange(blocks, ino) && Extent(blocks, ino, len)
            && Bytes(blocks, ino, len) == Bytes(blocks, inodes[i], len)
  {
    var ino := inodes[i].(size := len);
    SameAddrs(sb, blocks, inodes, owner, i, ino);
    hide AddrOf;
    forall k | 0 <= k < len ensures ByteAt(blocks, ino, k) == ByteAt(blocks, inodes[i], k) {
    }
  }

  /** If only file i changed and it is in order, every file is. */
  lemma AllOk(sb: Superblock, b0: seq<Block>, in0: seq<Inode>, ow0: Owner, b1: seq<Block>, in1: seq<Inode>, i: nat)
    requires Owned(sb, b0, in0, ow0) && Shape(sb, b1, in1) && i < |in0| && SameBut(b0, in0, b1, in1, {i})
    requires forall j :: 0 <= j < |in0| ==> FileOk(sb, b0, in0, j)
    requires forall j :: 0 <= j < |in0| && j != i ==> OnDisk(sb, b1, j) == OnDisk(sb, b0, j)
    requires FileOk(sb, b1, in1, i)
    ensures forall j :: 0 <= j < |in1| ==> FileOk(sb, b1, in1, j)
  {
    hide AddrOf, Named, Found, Marked;
    forall j | 0 <= j < |in1| ensures FileOk(sb, b1, in1, j) {
      if j != i {
        assert SameAt(b0, in0, b1, in1, j) && FileOk(sb, b0, in0, j);
        OwnedInRange(sb, b0, in0, ow0, j);
        SameFile(b0, b1, in0[j], in0[j].size);
      }
    }
  }

  ghost predicate FileOk(sb: Superblock, blocks: seq<Block>, inodes: seq<Inode>, j: nat)
    requires j < |inodes| && inodes[j].addrs[INDIRECT] < |blocks| && sb.inodestart + j / IPB < |blocks|
  {
    Extent(blocks, inodes[j], inodes[j].size) && OnDisk(sb, blocks, j) == inodes[j]
  }

  lemma FileLength(blocks: seq<Block>, ino: Inode, f: seq<Byte>)
    requires IsFile(blocks, ino, f)
    ensures |f| <= MAXBYTES
  {
  }

  lemma SliceMore(f: seq<Byte>, a: nat, b: nat, m: nat)
    requires a <= b && b + m <= |f|
    ensures f[a..b] + f[b..b + m] == f[a..b + m]
  {
  }

  lemma SpliceNothing(f: seq<Byte>, off: nat, src: seq<Byte>)
    requires off <= |f|
    ensures Splice(f, off, src[..0]) == f
  {
  }

  /** cur is `was` with the first tot bytes of src written at off. */
  ghost predicate Spliced(cur: seq<Byte>, was: seq<Byte>, off: nat, src: seq<Byte>, tot: nat) {
    tot <= |src| && off <= |was| && cur == Splice(was, off, src[..tot])
  }

  lemma SplicedStart(was: seq<Byte>, off: nat, src: seq<Byte>)
    requires off <= |was|
    ensures Spliced(was, was, off, src, 0)
  {
    SpliceNothing(was, off, src);
  }

  lemma SplicedStep(cur: seq<Byte>, was: seq<Byte>, off: nat, src: seq<Byte>, tot: nat, m: nat)
    requires Spliced(cur, was, off, src, tot) && tot + m <= |src|
    ensures off + tot <= |cur| == Max(|was|, off + tot)
    ensures Spliced(Splice(cur, off + tot, src[tot..tot + m]), was, off, src, tot + m)
    ensures |Splice(cur, off + tot, src[tot..tot + m])| == Max(|was|, off + tot + m)
  {
    SpliceNext(was, off, src, tot, m);
    SpliceLength(was, off, src[..tot]);
    SpliceLength(was, off, src[..tot + m]);
    hide Splice;
  }

  lemma SplicedIs(cur: seq<Byte>, was: seq<Byte>, off: nat, src: seq<Byte>, tot: nat)
    requires Spliced(cur, was, off, src, tot)
    ensures cur == Splice(was, off, src[..tot])
  {
  }

  lemma SplicedEnd(cur: seq<Byte>, was: seq<Byte>, off: nat, src: seq<Byte>)
    requires Spliced(cur, was, off, src, |src|)
    ensures cur == Splice(was, off, src)
  {
    assert src[..|src|] == src;
  }

  lemma SpliceLength(f: seq<Byte>, off: nat, data: seq<Byte>)
    requires off <= |f|
    ensures |Splice(f, off, data)| == Max(|f|, off + |data|)
  {
    SpliceMeaning(f, off, data);
  }

  lemma SpliceNext(f: seq<Byte>, off: nat, src: seq<Byte>, tot: nat, m: nat)
    requires off <= |f| && tot + m <= |src|
    ensures off + tot <= |Splice(f, off, src[..tot])|
    ensures Splice(Splice(f, off, src[..tot]), off + tot, src[tot..tot + m]) == Splice(f, off, src[..tot + m])
    ensures off + tot + m <= |Splice(f, off, src[..tot + m])|
    ensures off + tot + m <= |f| ==> |Splice(f, off, src[..tot + m])| == |f|
  {
    SpliceMore(f, off, src[..tot], src[tot..tot + m]);
    SpliceMeaning(f, off, src[..tot + m]);
    assert src[..tot] + src[tot..tot + m] == src[..tot + m];
  }

  /** Inode j is the same in memory and all of its data where it was. */
  ghost predicate SameAt(b0: seq<Block>, in0: seq<Inode>, b1: seq<Block>, in1: seq<Inode>, j: nat) {
    && |b0| == |b1| && j < |in0| == |in1| && in1[j] == in0[j]
    && in0[j].addrs[INDIRECT] < |b0| && Untouched(b0, b1, in0[j])
  }

  ghost predicate SameBut(b0: seq<Block>, in0: seq<Inode>, b1: seq<Block>, in1: seq<Inode>, except: set<nat>) {
    |in0| == |in1| && forall j: nat :: j < |in0| && j !in except ==> SameAt(b0, in0, b1, in1, j)
  }

  lemma SameSelf(blocks: seq<Block>, inodes: seq<Inode>, except: set<nat>)
    requires forall j :: 0 <= j < |inodes| ==> inodes[j].addrs[INDIRECT] < |blocks|
    ensures SameBut(blocks, inodes, blocks, inodes, except)
  {
  }

  lemma SameTwice(b0: seq<Block>, in0: seq<Inode>, b1: seq<Block>, in1: seq<Inode>, b2: seq<Block>, in2: seq<Inode>, except: set<nat>)
    requires SameBut(b0, in0, b1, in1, except) && SameBut(b1, in1, b2, in2, except)
    ensures SameBut(b0, in0, b2, in2, except)
  {
    forall j: nat | j < |in0| && j !in except ensures SameAt(b0, in0, b2, in2, j) {
      assert SameAt(b0, in0, b1, in1, j) && SameAt(b1, in1, b2, in2, j);
      UntouchedTwice(b0, b1, b2, in0[j]);
    }
  }

  /** Only inode i's addresses and blocks changed, and no inode block. */
  ghost predicate OnlyFile(sb: Superblock, b0: seq<Block>, in0: seq<Inode>, b1: seq<Block>, in1: seq<Inode>, i: nat) {
    && |b0| == |b1| && sb.bmapstart <= |b0| && i < |in0| && SameBut(b0, in0, b1, in1, {i})
    && (forall x :: 0 <= x < sb.bmapstart ==> b1[x] == b0[x])
    && in1[i] == in0[i].(addrs := in1[i].addrs)
  }

  lemma OnlyFileTwice(sb: Superblock, b0: seq<Block>, in0: seq<Inode>, b1: seq<Block>, in1: seq<Inode>, b2: seq<Block>, in2: seq<Inode>, i: nat)
    requires OnlyFile(sb, b0, in0, b1, in1, i) && OnlyFile(sb, b1, in1, b2, in2, i)
    ensures OnlyFile(sb, b0, in0, b2, in2, i)
  {
    SameTwice(b0, in0, b1, in1, b2, in2, {i});
  }

  lemma InodeBlock(sb: Superblock, i: nat)
    requires ValidSb(sb) && i < sb.ninodes
    ensures sb.inodestart + i / IPB < sb.bmapstart < sb.size
  {
    assert i / 8 <= sb.ninodes / 8;
  }
}
