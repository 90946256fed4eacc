/** Which blocks the file operations of fs.c give to log_write, and so how many log entries a write needs. */
module LogEntries {
  import opened Blocks
  import opened Bitmap
  import opened Dinode
  import opened FileSpec
  import LogFormat

  ghost function Added(ow0: Owner, ow: Owner): set<nat> {
    ow.Keys - ow0.Keys
  }

  /** The bitmap blocks that mark the blocks in s. */
  ghost function BitmapOf(sb: Superblock, s: set<nat>): set<nat> {
    set a | a in s :: sb.bmapstart + a / 4096
  }

  /** Some entry of an indirect block was filled. */
  ghost predicate NewEntry(ow0: Owner, ow: Owner) {
    exists a :: a in Added(ow0, ow) && ow[a].1 > INDIRECT
  }

  ghost function Ind(ow0: Owner, ow: Owner, ino: Inode): set<nat> {
    if NewEntry(ow0, ow) then {ino.addrs[INDIRECT] as nat} else {}
  }

  ghost predicate Extends(ow0: Owner, ow: Owner) {
    forall a :: a in ow0 ==> a in ow && ow[a] == ow0[a]
  }

  /** The log grew by the blocks that balloc marked and zeroed, their bitmap blocks, the indirect block if
      it has a new entry, and the blocks in `data`. */
  ghost predicate Uses(sb: Superblock, ow0: Owner, ow: Owner, log0: set<nat>, log: set<nat>, ino: Inode, data: set<nat>) {
    && Extends(ow0, ow)
    && log == log0 + Added(ow0, ow) + BitmapOf(sb, Added(ow0, ow)) + Ind(ow0, ow, ino) + data
  }

  lemma UsesNone(sb: Superblock, ow: Owner, log: set<nat>, ino: Inode)
    ensures Uses(sb, ow, ow, log, log, ino, {})
  {
    assert Added(ow, ow) == {};
  }

  /** balloc into slot s. */
  lemma UsesOne(sb: Superblock, ow0: Owner, log0: set<nat>, b: nat, i: nat, s: nat, ino: Inode, data: set<nat>)
    requires b !in ow0 && data == if s > INDIRECT then {ino.addrs[INDIRECT] as nat} else {}
    ensures Uses(sb, ow0, ow0[b := (i, s)], log0, log0 + {sb.bmapstart + b / 4096, b} + data, ino, {})
    ensures data == {} ==> Uses(sb, ow0, ow0[b := (i, s)], log0, log0 + {sb.bmapstart + b / 4096, b}, ino, {})
    ensures Added(ow0, ow0[b := (i, s)]) == {b}
  {
    var ow := ow0[b := (i, s)];
    assert Added(ow0, ow) == {b};
    assert data == {} ==> log0 + {sb.bmapstart + b / 4096, b} + data == log0 + {sb.bmapstart + b / 4096, b};
    assert BitmapOf(sb, {b}) == {sb.bmapstart + b / 4096};
    assert NewEntry(ow0, ow) <==> s > INDIRECT by {
      assert b in Added(ow0, ow);
    }
  }

  lemma AddedTwice(ow0: Owner, ow1: Owner, ow2: Owner)
    requires Extends(ow0, ow1) && Extends(ow1, ow2)
    ensures Extends(ow0, ow2) && Added(ow0, ow2) == Added(ow0, ow1) + Added(ow1, ow2)
    ensures NewEntry(ow0, ow2) <==> NewEntry(ow0, ow1) || NewEntry(ow1, ow2)
  {
    assert Added(ow0, ow2) == Added(ow0, ow1) + Added(ow1, ow2);
    if NewEntry(ow0, ow1) {
      var a :| a in Added(ow0, ow1) && ow1[a].1 > INDIRECT;
      assert a in Added(ow0, ow2) && ow2[a].1 > INDIRECT;
    }
    if NewEntry(ow1, ow2) {
      var a :| a in Added(ow1, ow2) && ow2[a].1 > INDIRECT;
      assert a in Added(ow0, ow2);
    }
  }

  lemma UsesTwice(sb: Superblock, ow0: Owner, ow1: Owner, ow2: Owner, l0: set<nat>, l1: set<nat>, l2: set<nat>,
                  ino1: Inode, ino2: Inode, d1: set<nat>, d2: set<nat>)
    requires Uses(sb, ow0, ow1, l0, l1, ino1, d1) && Uses(sb, ow1, ow2, l1, l2, ino2, d2)
    requires ino1.addrs[INDIRECT] != 0 ==> ino2.addrs[INDIRECT] == ino1.addrs[INDIRECT]
    requires NewEntry(ow0, ow1) ==> ino1.addrs[INDIRECT] != 0
    ensures Uses(sb, ow0, ow2, l0, l2, ino2, d1 + d2)
  {
    AddedTwice(ow0, ow1, ow2);
    assert BitmapOf(sb, Added(ow0, ow2)) == BitmapOf(sb, Added(ow0, ow1)) + BitmapOf(sb, Added(ow1, ow2));
    hide NewEntry, BitmapOf, Added, Extends;
  }

  lemma UsesData(sb: Superblock, ow0: Owner, ow: Owner, log0: set<nat>, log: set<nat>, ino: Inode, data: set<nat>, more: set<nat>)
    requires Uses(sb, ow0, ow, log0, log, ino, data)
    ensures Uses(sb, ow0, ow, log0, log + more, ino, data + more)
  {
  }

  /** The data blocks of a file from block lo up to block hi. */
  ghost function DataSet(blocks: seq<Block>, ino: Inode, lo: nat, hi: nat): set<nat>
    requires ino.addrs[INDIRECT] < |blocks| && lo <= hi <= MAXFILE
    decreases hi
  {
    if lo == hi then {} else DataSet(blocks, ino, lo, hi - 1) + {AddrOf(blocks, ino, Slot(hi - 1)) as nat}
  }

  /** All of them are there. */
  ghost predicate AllThere(blocks: seq<Block>, ino: Inode, lo: nat, hi: nat)
    requires ino.addrs[INDIRECT] < |blocks| && hi <= MAXFILE
  {
    forall bn :: lo <= bn < hi ==> AddrOf(blocks, ino, Slot(bn)) != 0
  }

  /** Addresses, once set, stay. */
  ghost predicate Stay(b0: seq<Block>, i0: Inode, b1: seq<Block>, i1: Inode) {
    && i0.addrs[INDIRECT] < |b0| && i1.addrs[INDIRECT] < |b1|
    && forall s :: 0 <= s < SLOTS && AddrOf(b0, i0, s) != 0 ==> AddrOf(b1, i1, s) == AddrOf(b0, i0, s)
  }

  lemma StayTwice(b0: seq<Block>, i0: Inode, b1: seq<Block>, i1: Inode, b2: seq<Block>, i2: Inode)
    requires Stay(b0, i0, b1, i1) && Stay(b1, i1, b2, i2)
    ensures Stay(b0, i0, b2, i2)
  {
    hide AddrOf;
  }

  lemma StayIndirect(b0: seq<Block>, i0: Inode, b1: seq<Block>, i1: Inode)
    requires Stay(b0, i0, b1, i1)
    ensures i0.addrs[INDIRECT] != 0 ==> i1.addrs[INDIRECT] == i0.addrs[INDIRECT]
  {
    AddrCases(b0, i0, INDIRECT);
    AddrCases(b1, i1, INDIRECT);
  }

  lemma {:induction false} SameData(b0: seq<Block>, i0: Inode, b1: seq<Block>, i1: Inode, lo: nat, hi: nat)
    requires Stay(b0, i0, b1, i1) && lo <= hi <= MAXFILE && AllThere(b0, i0, lo, hi)
    ensures DataSet(b1, i1, lo, hi) == DataSet(b0, i0, lo, hi) && AllThere(b1, i1, lo, hi)
    decreases hi
  {
    hide AddrOf;
    if lo < hi {
      SameData(b0, i0, b1, i1, lo, hi - 1);
    }
  }

  lemma OwnedSizes(sb: Superblock, blocks: seq<Block>, inodes: seq<Inode>, owner: Owner, i: nat)
    requires Owned(sb, blocks, inodes, owner) && i < |inodes|
    ensures inodes[i].addrs[INDIRECT] < |blocks| == sb.size && ValidSb(sb) && |inodes| == sb.ninodes
  {
  }

  lemma OneLess(blocks: seq<Block>, ino: Inode, lo: nat, hi: nat)
    requires ino.addrs[INDIRECT] < |blocks| && lo < hi <= MAXFILE && AllThere(blocks, ino, lo, hi)
    ensures AllThere(blocks, ino, lo, hi - 1) && AddrOf(blocks, ino, Slot(hi - 1)) != 0
  {
  }

  lemma {:induction false} DataHas(blocks: seq<Block>, ino: Inode, lo: nat, hi: nat, bn: nat)
    requires ino.addrs[INDIRECT] < |blocks| && lo <= bn < hi <= MAXFILE
    ensures AddrOf(blocks, ino, Slot(bn)) in DataSet(blocks, ino, lo, hi)
    decreases hi
  {
    hide AddrOf;
    if bn < hi - 1 {
      DataHas(blocks, ino, lo, hi - 1, bn);
    }
  }

  /** Different blocks of a file are different blocks. */
  lemma {:induction false} DataCount(sb: Superblock, blocks: seq<Block>, inodes: seq<Inode>, owner: Owner, i: nat, lo: nat, hi: nat)
    requires Owned(sb, blocks, inodes, owner) && i < |inodes| && lo <= hi <= MAXFILE && AllThere(blocks, inodes[i], lo, hi)
    ensures |DataSet(blocks, inodes[i], lo, hi)| == hi - lo
    ensures forall a :: a in DataSet(blocks, inodes[i], lo, hi) ==>
      a in owner && sb.nmeta <= a && owner[a].0 == i && owner[a].1 != INDIRECT && lo <= Bn(owner[a].1) < hi
    decreases hi
  {
    hide AddrOf, Owned, AllThere;
    OwnedSizes(sb, blocks, inodes, owner, i);
    if lo < hi {
      OneLess(blocks, inodes[i], lo, hi);
      DataCount(sb, blocks, inodes, owner, i, lo, hi - 1);
      SlotOwner(sb, blocks, inodes, owner, i, Slot(hi - 1));
    }
  }

  /** The file block a slot other than the indirect one holds. */
  function Bn(s: nat): nat {
    if s < INDIRECT then s else if s == INDIRECT then 0 else s - 1
  }

  /** Every new block is a block of the range, or the indirect block. */
  ghost predicate ForRange(ow0: Owner, ow: Owner, i: nat, lo: nat, hi: nat) {
    forall a :: a in Added(ow0, ow) ==> ow[a].0 == i && (ow[a].1 == INDIRECT || lo <= Bn(ow[a].1) < hi)
  }

  lemma RangeTwice(ow0: Owner, ow1: Owner, ow2: Owner, i: nat, lo: nat, mid: nat, hi: nat)
    requires Extends(ow0, ow1) && Extends(ow1, ow2) && ForRange(ow0, ow1, i, lo, mid) && ForRange(ow1, ow2, i, mid, hi) && lo <= mid <= hi
    ensures ForRange(ow0, ow2, i, lo, hi)
  {
    AddedTwice(ow0, ow1, ow2);
    forall a | a in Added(ow0, ow2) ensures ow2[a].0 == i && (ow2[a].1 == INDIRECT || lo <= Bn(ow2[a].1) < hi) {
      assert a in Added(ow0, ow1) || a in Added(ow1, ow2);
    }
  }

  /** File blocks that a write of n bytes at off touches. */
  function Touched(off: nat, n: nat): nat {
    if n == 0 then 0 else (off + n - 1) / 512 - off / 512 + 1
  }

  /** A write touches more blocks than one operation may log exactly when it reaches past ten blocks. */
  lemma TouchedMany(off: nat, n: nat)
    ensures Touched(off, n) > 10 <==> off % 512 + n > 5120
    ensures n == 6656 ==> Touched(off, n) == if off % 512 == 0 then 13 else 14
  {
  }

  lemma EntryMeans(sb: Superblock, blocks: seq<Block>, inodes: seq<Inode>, ow0: Owner, ow: Owner, i: nat, lo: nat, hi: nat)
    requires Owned(sb, blocks, inodes, ow) && i < |inodes| && ForRange(ow0, ow, i, lo, hi)
    ensures NewEntry(ow0, ow) ==> inodes[i].addrs[INDIRECT] != 0
  {
    if NewEntry(ow0, ow) {
      var a :| a in Added(ow0, ow) && ow[a].1 > INDIRECT;
      AddrCases(blocks, inodes[i], ow[a].1);
    }
  }

  lemma GrownStay(sb: Superblock, b0: seq<Block>, in0: seq<Inode>, ow0: Owner,
                  b1: seq<Block>, in1: seq<Inode>, ow1: Owner, i: nat, slots: set<nat>)
    requires Grown(sb, b0, in0, ow0, b1, in1, ow1, i, slots)
    ensures i < |in0| == |in1| && Stay(b0, in0[i], b1, in1[i]) && Extends(ow0, ow1)
  {
    hide AddrOf;
  }

  lemma NoneAdded(ow: Owner)
    ensures Added(ow, ow) == {}
  {
  }

  lemma UsesSame(sb: Superblock, ow0: Owner, ow: Owner, log0: set<nat>, log: set<nat>, ino: Inode)
    requires Uses(sb, ow0, ow, log0, log, ino, {})
    ensures ow == ow0 ==> log == log0
  {
    assert ow == ow0 ==> Added(ow0, ow) == {};
  }

  lemma RangeOf(ow0: Owner, ow: Owner, i: nat, bn: nat, slots: set<nat>)
    requires slots <= BmapSlots(bn) && forall a :: a in Added(ow0, ow) ==> a in ow && ow[a].0 == i && ow[a].1 in slots
    ensures ForRange(ow0, ow, i, bn, bn + 1)
  {
  }

  lemma StillOwned(ow0: Owner, ow1: Owner, ow2: Owner, a: nat)
    requires Extends(ow0, ow1) && Extends(ow1, ow2) && a in Added(ow0, ow2)
    ensures a in ow2 && (a in Added(ow1, ow2) || (a in Added(ow0, ow1) && ow2[a] == ow1[a]))
  {
  }

  /** bmap's two allocations together. */
  lemma BmapUses(sb: Superblock, b0: seq<Block>, in0: seq<Inode>, ow0: Owner, b1: seq<Block>, in1: seq<Inode>, ow1: Owner,
                 b2: seq<Block>, in2: seq<Inode>, ow2: Owner, l0: set<nat>, l1: set<nat>, l2: set<nat>, i: nat, bn: nat)
    requires Grown(sb, b0, in0, ow0, b1, in1, ow1, i, {INDIRECT}) && Grown(sb, b1, in1, ow1, b2, in2, ow2, i, {bn + 1})
    requires Uses(sb, ow0, ow1, l0, l1, in1[i], {}) && Uses(sb, ow1, ow2, l1, l2, in2[i], {}) && NDIRECT <= bn
    requires forall a :: a in Added(ow0, ow1) ==> a in ow1 && ow1[a] == (i, INDIRECT)
    requires forall a :: a in Added(ow1, ow2) ==> a in ow2 && ow2[a] == (i, bn + 1)
    ensures Uses(sb, ow0, ow2, l0, l2, in2[i], {}) && ForRange(ow0, ow2, i, bn, bn + 1)
  {
    hide Grown, Uses, Stay, Added, ForRange, Extends;
    GrownStay(sb, b0, in0, ow0, b1, in1, ow1, i, {INDIRECT});
    GrownStay(sb, b1, in1, ow1, b2, in2, ow2, i, {bn + 1});
    StayIndirect(b1, in1[i], b2, in2[i]);
    assert !NewEntry(ow0, ow1);
    var none: set<nat> := {};
    assert none + none == none;
    UsesTwice(sb, ow0, ow1, ow2, l0, l1, l2, in1[i], in2[i], none, none);
    AddedTwice(ow0, ow1, ow2);
    forall a | a in Added(ow0, ow2) ensures a in ow2 && ow2[a].0 == i && ow2[a].1 in BmapSlots(bn) {
      StillOwned(ow0, ow1, ow2, a);
    }
    RangeOf(ow0, ow2, i, bn, BmapSlots(bn));
  }

  /** A write to blocks lo up to hi of file i logged exactly what it allocated, the blocks themselves, and `more`. */
  ghost predicate Wrote(sb: Superblock, ow0: Owner, ow: Owner, log0: set<nat>, log: set<nat>, blocks: seq<Block>, ino: Inode,
                        i: nat, lo: nat, hi: nat, more: set<nat>) {
    && ino.addrs[INDIRECT] < |blocks| && lo <= hi <= MAXFILE && AllThere(blocks, ino, lo, hi) && ForRange(ow0, ow, i, lo, hi)
    && Uses(sb, ow0, ow, log0, log, ino, DataSet(blocks, ino, lo, hi) + more)
  }

  lemma WroteNone(sb: Superblock, ow: Owner, log: set<nat>, blocks: seq<Block>, ino: Inode, i: nat, lo: nat)
    requires ino.addrs[INDIRECT] < |blocks| && lo <= MAXFILE
    ensures Wrote(sb, ow, ow, log, log, blocks, ino, i, lo, lo, {})
  {
    UsesNone(sb, ow, log, ino);
    NoneAdded(ow);
    assert DataSet(blocks, ino, lo, lo) + {} == {};
  }

  /** What bmap and log_write of block bn amount to. */
  lemma WroteOne(sb: Superblock, ow0: Owner, ow: Owner, log0: set<nat>, log1: set<nat>, log: set<nat>, blocks: seq<Block>, ino: Inode, i: nat, bn: nat)
    requires ino.addrs[INDIRECT] < |blocks| && bn < MAXFILE && AddrOf(blocks, ino, Slot(bn)) != 0
    requires Uses(sb, ow0, ow, log0, log1, ino, {}) && ForRange(ow0, ow, i, bn, bn + 1)
    requires log == log1 + {AddrOf(blocks, ino, Slot(bn)) as nat}
    ensures Wrote(sb, ow0, ow, log0, log, blocks, ino, i, bn, bn + 1, {})
  {
    var a: set<nat> := {AddrOf(blocks, ino, Slot(bn)) as nat};
    UsesData(sb, ow0, ow, log0, log1, ino, {}, a);
    hide AddrOf, Uses, ForRange;
    assert DataSet(blocks, ino, bn, bn) == {};
    assert DataSet(blocks, ino, bn, bn + 1) + {} == {} + a;
  }

  lemma WroteTwice(sb: Superblock, ow0: Owner, ow1: Owner, ow2: Owner, l0: set<nat>, l1: set<nat>, l2: set<nat>,
                   b1: seq<Block>, i1: Inode, b2: seq<Block>, i2: Inode, i: nat, lo: nat, mid: nat)
    requires Wrote(sb, ow0, ow1, l0, l1, b1, i1, i, lo, mid, {}) && Wrote(sb, ow1, ow2, l1, l2, b2, i2, i, mid, mid + 1, {})
    requires Stay(b1, i1, b2, i2) && (NewEntry(ow0, ow1) ==> i1.addrs[INDIRECT] != 0)
    ensures Wrote(sb, ow0, ow2, l0, l2, b2, i2, i, lo, mid + 1, {})
  {
    hide AddrOf, NewEntry, BitmapOf, Ind, Stay;
    SameData(b1, i1, b2, i2, lo, mid);
    StayIndirect(b1, i1, b2, i2);
    var d1, d2 := DataSet(b1, i1, lo, mid) + {}, DataSet(b2, i2, mid, mid + 1) + {};
    UsesTwice(sb, ow0, ow1, ow2, l0, l1, l2, i1, i2, d1, d2);
    RangeTwice(ow0, ow1, ow2, i, lo, mid, mid + 1);
    assert DataSet(b2, i2, mid, mid) == {};
    assert d1 + d2 == DataSet(b2, i2, lo, mid + 1) + {};
  }

  /** iupdate at the end of a write. */
  lemma WroteMore(sb: Superblock, ow0: Owner, ow: Owner, l0: set<nat>, l1: set<nat>, b1: seq<Block>, i1: Inode, b2: seq<Block>, i2: Inode,
                  i: nat, lo: nat, hi: nat, more: set<nat>)
    requires Wrote(sb, ow0, ow, l0, l1, b1, i1, i, lo, hi, {}) && Stay(b1, i1, b2, i2) && i2.addrs == i1.addrs
    ensures Wrote(sb, ow0, ow, l0, l1 + more, b2, i2, i, lo, hi, more)
  {
    hide AddrOf, BitmapOf, NewEntry, Added;
    SameData(b1, i1, b2, i2, lo, hi);
    UsesData(sb, ow0, ow, l0, l1, i1, DataSet(b1, i1, lo, hi) + {}, more);
    assert DataSet(b1, i1, lo, hi) + {} + more == DataSet(b2, i2, lo, hi) + more;
  }

  lemma TouchedNext(off: nat, tot: nat, m: nat)
    requires 0 < m <= 512 - (off + tot) % 512 && (tot == 0 || (off + tot) % 512 == 0)
    ensures (off + tot) / 512 == off / 512 + Touched(off, tot) && Touched(off, tot + m) == Touched(off, tot) + 1
  {
  }

  lemma WroteEntry(sb: Superblock, blocks: seq<Block>, inodes: seq<Inode>, ow0: Owner, ow: Owner, log0: set<nat>, log: set<nat>, i: nat, lo: nat, hi: nat)
    requires Owned(sb, blocks, inodes, ow) && i < |inodes| && Wrote(sb, ow0, ow, log0, log, blocks, inodes[i], i, lo, hi, {})
    ensures NewEntry(ow0, ow) ==> inodes[i].addrs[INDIRECT] != 0
  {
    EntryMeans(sb, blocks, inodes, ow0, ow, i, lo, hi);
  }

  /** Writing a data block moves no address. */
  lemma DataStay(sb: Superblock, blocks: seq<Block>, inodes: seq<Inode>, owner: Owner, a: nat, data: Block, i: nat)
    requires Owned(sb, blocks, inodes, owner) && a in owner && owner[a].1 != INDIRECT && i < |inodes|
    ensures a < |blocks| && Stay(blocks, inodes[i], blocks[a := data], inodes[i])
  {
    DataKeeps(sb, blocks, inodes, owner, a, data);
    hide AddrOf;
  }

  lemma WroteBegin(sb: Superblock, blocks: seq<Block>, inodes: seq<Inode>, ow: Owner, log: set<nat>, i: nat, off: nat, was: seq<Byte>)
    requires Owned(sb, blocks, inodes, ow) && i < |inodes| && IsFile(blocks, inodes[i], was) && off <= |was|
    ensures Wrote(sb, ow, ow, log, log, blocks, inodes[i], i, off / 512, off / 512 + Touched(off, 0), {})
  {
    WroteNone(sb, ow, log, blocks, inodes[i], i, off / 512);
  }

  /** The indirect block is new or has a new entry. */
  ghost predicate IndLogged(ow0: Owner, ow: Owner) {
    NewEntry(ow0, ow) || exists a :: a in Added(ow0, ow) && ow[a].1 == INDIRECT
  }

  ghost function IndSet(ow0: Owner, ow: Owner, ino: Inode): set<nat> {
    if IndLogged(ow0, ow) then {ino.addrs[INDIRECT] as nat} else {}
  }

  lemma FoundAt(sb: Superblock, blocks: seq<Block>, inodes: seq<Inode>, ow: Owner, a: nat)
    requires Owned(sb, blocks, inodes, ow) && a in ow
    ensures sb.nmeta <= a < sb.size == |blocks| && ow[a].0 < |inodes| && ow[a].1 < SLOTS && inodes[ow[a].0].addrs[INDIRECT] < |blocks|
    ensures AddrOf(blocks, inodes[ow[a].0], ow[a].1) == a
  {
  }

  /** A new block is one of the range's data blocks or the indirect block. */
  lemma AddedWhere(sb: Superblock, blocks: seq<Block>, inodes: seq<Inode>, ow0: Owner, ow: Owner, i: nat, lo: nat, hi: nat, a: nat)
    requires Owned(sb, blocks, inodes, ow) && i < |inodes| && ForRange(ow0, ow, i, lo, hi) && lo <= hi <= MAXFILE && a in Added(ow0, ow)
    ensures inodes[i].addrs[INDIRECT] < |blocks| && a < sb.size
    ensures a in DataSet(blocks, inodes[i], lo, hi) || (IndLogged(ow0, ow) && a == inodes[i].addrs[INDIRECT])
  {
    hide Owned, AddrOf, NewEntry, DataSet;
    FoundAt(sb, blocks, inodes, ow, a);
    AddrCases(blocks, inodes[i], ow[a].1);
    if ow[a].1 != INDIRECT {
      DataHas(blocks, inodes[i], lo, hi, Bn(ow[a].1));
    }
  }

  lemma IndOwned(sb: Superblock, blocks: seq<Block>, inodes: seq<Inode>, ow0: Owner, ow: Owner, i: nat, lo: nat, hi: nat)
    requires Owned(sb, blocks, inodes, ow) && i < |inodes| && ForRange(ow0, ow, i, lo, hi) && IndLogged(ow0, ow)
    ensures inodes[i].addrs[INDIRECT] in ow && ow[inodes[i].addrs[INDIRECT]] == (i, INDIRECT) && sb.nmeta <= inodes[i].addrs[INDIRECT]
  {
    EntryMeans(sb, blocks, inodes, ow0, ow, i, lo, hi);
    if !NewEntry(ow0, ow) {
      var a :| a in Added(ow0, ow) && ow[a].1 == INDIRECT;
      AddrCases(blocks, inodes[i], INDIRECT);
      assert inodes[i].addrs[INDIRECT] == a;
    }
    IndirectOwned(sb, blocks, inodes, ow, i);
  }

  /** The kinds of logged blocks. */
  lemma Kinds(sb: Superblock, blocks: seq<Block>, inodes: seq<Inode>, ow0: Owner, ow: Owner, log: set<nat>, i: nat, lo: nat, hi: nat, more: set<nat>)
    requires Owned(sb, blocks, inodes, ow) && i < |inodes| && Wrote(sb, ow0, ow, {}, log, blocks, inodes[i], i, lo, hi, more)
    ensures log == DataSet(blocks, inodes[i], lo, hi) + IndSet(ow0, ow, inodes[i]) + BitmapOf(sb, Added(ow0, ow)) + more
  {
    hide Owned, DataSet, BitmapOf, Added, NewEntry, IndLogged, ForRange, AllThere;
    OwnedSizes(sb, blocks, inodes, ow, i);
    var add, d, c := Added(ow0, ow), DataSet(blocks, inodes[i], lo, hi), IndSet(ow0, ow, inodes[i]);
    forall a | a in add ensures a in d + c {
      AddedWhere(sb, blocks, inodes, ow0, ow, i, lo, hi, a);
    }
    EntryLogs(ow0, ow);
    if IndLogged(ow0, ow) {
      IndAdded(sb, blocks, inodes, ow0, ow, i, lo, hi);
    }
    Regroup(log, add, BitmapOf(sb, add), Ind(ow0, ow, inodes[i]), d, c, more);
  }

  lemma Regroup(log: set<nat>, add: set<nat>, b: set<nat>, ind: set<nat>, d: set<nat>, c: set<nat>, more: set<nat>)
    requires log == {} + add + b + ind + (d + more) && add <= d + c && ind <= c <= add + ind
    ensures log == d + c + b + more
  {
  }

  lemma IndAdded(sb: Superblock, blocks: seq<Block>, inodes: seq<Inode>, ow0: Owner, ow: Owner, i: nat, lo: nat, hi: nat)
    requires Owned(sb, blocks, inodes, ow) && i < |inodes| && ForRange(ow0, ow, i, lo, hi) && IndLogged(ow0, ow)
    ensures inodes[i].addrs[INDIRECT] as nat in Added(ow0, ow) + Ind(ow0, ow, inodes[i])
  {
    if !NewEntry(ow0, ow) {
      var a :| a in Added(ow0, ow) && ow[a].1 == INDIRECT;
      FoundAt(sb, blocks, inodes, ow, a);
      AddrCases(blocks, inodes[i], INDIRECT);
    }
  }

  lemma BitmapBelow(sb: Superblock, s: set<nat>)
    requires ValidSb(sb) && forall a :: a in s ==> a < sb.size
    ensures forall b :: b in BitmapOf(sb, s) ==> sb.bmapstart <= b < sb.nmeta
  {
    forall b | b in BitmapOf(sb, s) ensures sb.bmapstart <= b < sb.nmeta {
      var a :| a in s && b == sb.bmapstart + a / 4096;
      DivMono(a, sb.size);
    }
  }

  /** No block is of two kinds: data and indirect blocks lie beyond the bitmap and have different owners, inode blocks lie before it. */
  lemma KindsApart(sb: Superblock, blocks: seq<Block>, inodes: seq<Inode>, ow0: Owner, ow: Owner, i: nat, lo: nat, hi: nat, more: set<nat>)
    requires Owned(sb, blocks, inodes, ow) && i < |inodes| && ForRange(ow0, ow, i, lo, hi) && more <= {sb.inodestart + i / IPB}
    requires inodes[i].addrs[INDIRECT] < |blocks| && lo <= hi <= MAXFILE && AllThere(blocks, inodes[i], lo, hi)
    ensures var d, c, b := DataSet(blocks, inodes[i], lo, hi), IndSet(ow0, ow, inodes[i]), BitmapOf(sb, Added(ow0, ow));
      d !! c && (d + c) !! b && (d + c + b) !! more && |d| == hi - lo
  {
    hide Owned, DataSet, NewEntry, ForRange, AllThere, BitmapOf, IndLogged;
    OwnedSizes(sb, blocks, inodes, ow, i);
    DataCount(sb, blocks, inodes, ow, i, lo, hi);
    if IndLogged(ow0, ow) {
      IndOwned(sb, blocks, inodes, ow0, ow, i, lo, hi);
    }
    forall a | a in Added(ow0, ow) ensures a < sb.size {
      FoundAt(sb, blocks, inodes, ow, a);
    }
    BitmapBelow(sb, Added(ow0, ow));
    assert i / 8 <= sb.ninodes / 8;
  }

  lemma EntryLogs(ow0: Owner, ow: Owner)
    ensures NewEntry(ow0, ow) ==> IndLogged(ow0, ow)
  {
  }

  /** How many entries a write of file blocks lo up to hi adds to an empty log: those blocks, the indirect
      block if it changed, a bitmap block for each group of new blocks, and the inode's block if the file grew. */
  lemma EntryCount(sb: Superblock, blocks: seq<Block>, inodes: seq<Inode>, ow0: Owner, ow: Owner, log: set<nat>, i: nat, lo: nat, hi: nat, more: set<nat>)
    requires Owned(sb, blocks, inodes, ow) && i < |inodes| && more <= {sb.inodestart + i / IPB}
    requires Wrote(sb, ow0, ow, {}, log, blocks, inodes[i], i, lo, hi, more)
    ensures |log| == hi - lo + (if IndLogged(ow0, ow) then 1 else 0) + |BitmapOf(sb, Added(ow0, ow))| + |more|
  {
    Kinds(sb, blocks, inodes, ow0, ow, log, i, lo, hi, more);
    KindsApart(sb, blocks, inodes, ow0, ow, i, lo, hi, more);
    var d, c, b := DataSet(blocks, inodes[i], lo, hi), IndSet(ow0, ow, inodes[i]), BitmapOf(sb, Added(ow0, ow));
    hide Wrote, Owned, DataSet, BitmapOf, IndLogged;
    assert |d + c| == |d| + |c| && |d + c + b| == |d + c| + |b| && |d + c + b + more| == |d + c + b| + |more|;
  }

  /** A write that reaches past ten blocks adds more entries than an operation reserves, and one that only
      overwrites does so in no other case.  Every full filewrite chunk is such a write. */
  lemma Overdraws(sb: Superblock, blocks: seq<Block>, inodes: seq<Inode>, ow0: Owner, ow: Owner, log: set<nat>, i: nat,
                  off: nat, n: nat, more: set<nat>)
    requires Owned(sb, blocks, inodes, ow) && i < |inodes| && more <= {sb.inodestart + i / IPB}
    requires Wrote(sb, ow0, ow, {}, log, blocks, inodes[i], i, off / 512, off / 512 + Touched(off, n), more)
    ensures off % 512 + n > 5120 ==> |log| > LogFormat.MAXOPBLOCKS
    ensures ow == ow0 && more == {} ==> (|log| > LogFormat.MAXOPBLOCKS <==> off % 512 + n > 5120)
    ensures n == 6656 ==> |log| >= 13
  {
    hide Wrote, Owned, Touched, Added, BitmapOf, IndLogged;
    EntryCount(sb, blocks, inodes, ow0, ow, log, i, off / 512, off / 512 + Touched(off, n), more);
    TouchedMany(off, n);
    NothingNew(sb, ow);
  }

  lemma NothingNew(sb: Superblock, ow: Owner)
    ensures BitmapOf(sb, Added(ow, ow)) == {} && !IndLogged(ow, ow)
  {
  }
}
