/** Inodes, their block addresses and the bytes they hold, as values: which block belongs to
    which inode (fs.c, bmap and itrunc), and the byte sequence a file stands for. */
module FileSpec {
  import opened Blocks
  import opened Bitmap
  import opened Dinode

  const NINDIRECT: nat := 128
  const MAXFILE: nat := NDIRECT + NINDIRECT
  /** Slots 0..11 hold direct addresses, slot 12 the indirect block's, 13..140 the entries of
      the indirect block. */
  const INDIRECT: nat := 12
  const SLOTS: nat := MAXFILE + 1
  /** MAXFILE * BSIZE and NDIRECT * BSIZE, written out (as BSIZE is below) to keep arithmetic linear. */
  const MAXBYTES: nat := 71680
  const DIRECTBYTES: nat := 6144

  datatype Superblock = Superblock(size: nat, ninodes: nat, inodestart: nat, bmapstart: nat, nmeta: nat)

  /** The layout mkfs lays down: inode blocks, then the bitmap, then data. */
  ghost predicate ValidSb(sb: Superblock) {
    && sb.size <= WORD_RANGE && sb.inodestart + sb.ninodes / IPB < sb.bmapstart
    && sb.bmapstart + sb.size / BPB < sb.nmeta <= sb.size && 0 < sb.nmeta
  }

  type Owner = map<nat, (nat, nat)>

  function Slot(bn: nat): nat {
    if bn < NDIRECT then bn else bn + 1
  }

  /** The address in slot s of an inode; 0 means no block. */
  function AddrOf(blocks: seq<Block>, ino: Inode, s: nat): Uint
    requires s < SLOTS && ino.addrs[INDIRECT] < |blocks|
  {
    if s <= INDIRECT then ino.addrs[s]
    else if ino.addrs[INDIRECT] == 0 then 0
    else Word(blocks[ino.addrs[INDIRECT]], s - INDIRECT - 1)
  }

  lemma AddrCases(blocks: seq<Block>, ino: Inode, s: nat)
    requires s < SLOTS && ino.addrs[INDIRECT] < |blocks|
    ensures s <= INDIRECT ==> AddrOf(blocks, ino, s) == ino.addrs[s]
    ensures s > INDIRECT && ino.addrs[INDIRECT] == 0 ==> AddrOf(blocks, ino, s) == 0
  {
  }

  ghost predicate Shape(sb: Superblock, blocks: seq<Block>, inodes: seq<Inode>) {
    && ValidSb(sb) && |blocks| == sb.size && |inodes| == sb.ninodes
    && forall i :: 0 <= i < |inodes| ==> inodes[i].addrs[INDIRECT] < sb.size
  }

  predicate InUse(sb: Superblock, blocks: seq<Block>, b: nat)
    requires b < sb.size && sb.bmapstart + sb.size / BPB < |blocks|
  {
    Used(blocks, sb.bmapstart, b)
  }

  /** Every address names a block this slot alone owns. */
  ghost predicate Named(blocks: seq<Block>, inodes: seq<Inode>, owner: Owner)
    requires forall i :: 0 <= i < |inodes| ==> inodes[i].addrs[INDIRECT] < |blocks|
  {
    forall i, s :: 0 <= i < |inodes| && 0 <= s < SLOTS && AddrOf(blocks, inodes[i], s) != 0 ==>
      AddrOf(blocks, inodes[i], s) in owner && owner[AddrOf(blocks, inodes[i], s)] == (i, s)
  }

  /** Every owned block is a data block found in its owner's slot. */
  ghost predicate Found(sb: Superblock, blocks: seq<Block>, inodes: seq<Inode>, owner: Owner)
    requires Shape(sb, blocks, inodes)
  {
    forall a :: a in owner ==>
      && sb.nmeta <= a < sb.size && owner[a].0 < |inodes| && owner[a].1 < SLOTS
      && AddrOf(blocks, inodes[owner[a].0], owner[a].1) == a
  }

  /** The bitmap marks exactly the metadata blocks, the owned blocks and the blocks in `extra`. */
  ghost predicate Marked(sb: Superblock, blocks: seq<Block>, owner: Owner, extra: set<nat>)
    requires ValidSb(sb) && |blocks| == sb.size
  {
    forall b: nat :: b < sb.size ==> (InUse(sb, blocks, b) <==> b < sb.nmeta || b in owner || b in extra)
  }

  ghost predicate Owned(sb: Superblock, blocks: seq<Block>, inodes: seq<Inode>, owner: Owner) {
    && Shape(sb, blocks, inodes) && Named(blocks, inodes, owner) && Found(sb, blocks, inodes, owner)
    && Marked(sb, blocks, owner, {})
  }

  /** No block has two owners. */
  lemma OneOwner(sb: Superblock, blocks: seq<Block>, inodes: seq<Inode>, owner: Owner, i: nat, s: nat, j: nat, t: nat)
    requires Owned(sb, blocks, inodes, owner) && i < |inodes| && j < |inodes| && s < SLOTS && t < SLOTS
    requires AddrOf(blocks, inodes[i], s) == AddrOf(blocks, inodes[j], t) != 0
    ensures i == j && s == t && InUse(sb, blocks, AddrOf(blocks, inodes[i], s))
  {
    assert AddrOf(blocks, inodes[i], s) in owner;
  }

  // ---- steps of bmap ----

  /** The blocks after balloc took block b: marked in the bitmap and zeroed. */
  function Taken(sb: Superblock, blocks: seq<Block>, b: nat): (r: seq<Block>)
    requires b < sb.size == |blocks| && sb.bmapstart + sb.size / BPB < sb.size
    ensures |r| == |blocks|
  {
    Mark(blocks, sb.bmapstart, b, true)[b := ZeroBlock()]
  }

  lemma DivMono(a: nat, b: nat)
    requires a <= b
    ensures a / BPB <= b / BPB
  {
  }

  /** Changing no indirect block changes no address. */
  lemma SameAddr(blocks: seq<Block>, blocks': seq<Block>, inodes: seq<Inode>, owner: Owner, i: nat, s: nat)
    requires forall i :: 0 <= i < |inodes| ==> inodes[i].addrs[INDIRECT] < |blocks|
    requires Named(blocks, inodes, owner) && |blocks'| == |blocks| && i < |inodes| && s < SLOTS
    requires forall a :: a in owner && owner[a] == (i, INDIRECT) && a < |blocks| ==> blocks'[a] == blocks[a]
    ensures AddrOf(blocks', inodes[i], s) == AddrOf(blocks, inodes[i], s)
  {
    var a := AddrOf(blocks, inodes[i], INDIRECT);
    if a != 0 {
      assert a in owner && owner[a] == (i, INDIRECT);
    }
  }

  /** An unmarked block is a free data block. */
  lemma FreeBlock(sb: Superblock, blocks: seq<Block>, inodes: seq<Inode>, owner: Owner, b: nat)
    requires Owned(sb, blocks, inodes, owner) && b < sb.size && !InUse(sb, blocks, b)
    ensures sb.nmeta <= b && b !in owner
  {
  }

  lemma TakenMarks(sb: Superblock, blocks: seq<Block>, b: nat, c: nat)
    requires ValidSb(sb) && |blocks| == sb.size && sb.nmeta <= b < sb.size && c < sb.size
    ensures InUse(sb, Taken(sb, blocks, b), c) <==> InUse(sb, blocks, c) || c == b
    ensures sb.bmapstart + b / BPB < sb.nmeta
  {
    DivMono(b, sb.size);
    DivMono(c, sb.size);
    MarkMeaning(blocks, sb.bmapstart, b, true, c);
  }

  lemma TakenBlocks(sb: Superblock, blocks: seq<Block>, b: nat, x: nat)
    requires ValidSb(sb) && |blocks| == sb.size && sb.nmeta <= b < sb.size && x < sb.size
    ensures x == b ==> Taken(sb, blocks, b)[x] == ZeroBlock()
    ensures x != b && (x < sb.bmapstart || sb.nmeta <= x) ==> Taken(sb, blocks, b)[x] == blocks[x]
  {
    DivMono(b, sb.size);
  }

  /** balloc disturbs no owned block, no inode block and no address. */
  lemma TakenKeeps(sb: Superblock, blocks: seq<Block>, inodes: seq<Inode>, owner: Owner, b: nat)
    requires Owned(sb, blocks, inodes, owner) && b < sb.size && !InUse(sb, blocks, b)
    ensures var r := Taken(sb, blocks, b);
            && Shape(sb, r, inodes) && Named(r, inodes, owner) && Found(sb, r, inodes, owner) && Marked(sb, r, owner, {b})
            && r[b] == ZeroBlock() && (forall x :: x in owner ==> r[x] == blocks[x])
            && forall i, s :: 0 <= i < |inodes| && 0 <= s < SLOTS ==> AddrOf(r, inodes[i], s) == AddrOf(blocks, inodes[i], s)
  {
    var r := Taken(sb, blocks, b);
    FreeBlock(sb, blocks, inodes, owner, b);
    forall x | x in owner ensures r[x] == blocks[x] {
      TakenBlocks(sb, blocks, b, x);
    }
    TakenBlocks(sb, blocks, b, b);
    forall i, s | 0 <= i < |inodes| && 0 <= s < SLOTS ensures AddrOf(r, inodes[i], s) == AddrOf(blocks, inodes[i], s) {
      SameAddr(blocks, r, inodes, owner, i, s);
    }
    forall c: nat | c < sb.size ensures InUse(sb, r, c) <==> c < sb.nmeta || c in owner || c in {b} {
      TakenMarks(sb, blocks, b, c);
    }
  }

  /** Block b enters slot s of inode i and nothing else moves. */
  lemma Adopt(sb: Superblock, blocks: seq<Block>, inodes: seq<Inode>, blocks': seq<Block>, inodes': seq<Inode>,
              owner: Owner, i: nat, s: nat, b: Uint)
    requires Shape(sb, blocks, inodes) && Named(blocks, inodes, owner) && Found(sb, blocks, inodes, owner)
    requires Shape(sb, blocks', inodes') && Marked(sb, blocks', owner, {b}) && |inodes'| == |inodes|
    requires b !in owner && sb.nmeta <= b < sb.size && i < |inodes| && s < SLOTS && AddrOf(blocks, inodes[i], s) == 0
    requires forall j, t :: 0 <= j < |inodes| && 0 <= t < SLOTS ==>
      AddrOf(blocks', inodes'[j], t) == if j == i && t == s then b else AddrOf(blocks, inodes[j], t)
    ensures Owned(sb, blocks', inodes', owner[b := (i, s)])
  {
    hide AddrOf, InUse;
    assert Named(blocks', inodes', owner[b := (i, s)]);
    assert Found(sb, blocks', inodes', owner[b := (i, s)]);
  }

  lemma DirectAddr(blocks: seq<Block>, ino: Inode, s: nat, b: Uint, t: nat)
    requires ino.addrs[INDIRECT] < |blocks| && b < |blocks| && blocks[b] == ZeroBlock()
    requires s <= INDIRECT && ino.addrs[s] == 0 && t < SLOTS
    ensures AddrOf(blocks, ino.(addrs := ino.addrs[s := b]), t) == if t == s then b else AddrOf(blocks, ino, t)
  {
    hide ZeroBlock, Word;
    var ino' := ino.(addrs := ino.addrs[s := b]);
    if t <= INDIRECT {
      assert ino'.addrs[t] == if t == s then b else ino.addrs[t];
    } else if s == INDIRECT {
      ZeroWord(t - INDIRECT - 1);
    } else {
      assert ino'.addrs[INDIRECT] == ino.addrs[INDIRECT];
    }
  }

  lemma ZeroWord(j: nat)
    requires j < WORDS
    ensures Word(ZeroBlock(), j) == 0
  {
    ZeroWords(ZeroBlock(), j);
  }

  /** The new block becomes a direct or the indirect block of inode i. */
  lemma AdoptDirect(sb: Superblock, blocks: seq<Block>, inodes: seq<Inode>, owner: Owner, i: nat, s: nat, b: Uint)
    requires Shape(sb, blocks, inodes) && Named(blocks, inodes, owner) && Found(sb, blocks, inodes, owner)
    requires Marked(sb, blocks, owner, {b}) && b !in owner && sb.nmeta <= b < sb.size && blocks[b] == ZeroBlock()
    requires i < |inodes| && s <= INDIRECT && inodes[i].addrs[s] == 0
    ensures var ino := inodes[i].(addrs := inodes[i].addrs[s := b]);
            && Owned(sb, blocks, inodes[i := ino], owner[b := (i, s)])
            && forall t :: 0 <= t < SLOTS ==> AddrOf(blocks, ino, t) == if t == s then b else AddrOf(blocks, inodes[i], t)
  {
    var ino := inodes[i].(addrs := inodes[i].addrs[s := b]);
    var inodes' := inodes[i := ino];
    assert AddrOf(blocks, inodes[i], s) == 0;
    assert Shape(sb, blocks, inodes');
    hide Named, Found, Marked, AddrOf, ZeroBlock, Word, InUse;
    forall t | 0 <= t < SLOTS ensures AddrOf(blocks, ino, t) == if t == s then b else AddrOf(blocks, inodes[i], t) {
      DirectAddr(blocks, inodes[i], s, b, t);
    }
    Adopt(sb, blocks, inodes, blocks, inodes', owner, i, s, b);
  }

  /** The new block becomes an entry of inode i's indirect block. */
  lemma AdoptIndirect(sb: Superblock, blocks: seq<Block>, inodes: seq<Inode>, owner: Owner, i: nat, s: nat, b: Uint)
    requires Shape(sb, blocks, inodes) && Named(blocks, inodes, owner) && Found(sb, blocks, inodes, owner)
    requires Marked(sb, blocks, owner, {b}) && b !in owner && sb.nmeta <= b < sb.size
    requires i < |inodes| && INDIRECT < s < SLOTS && inodes[i].addrs[INDIRECT] != 0 && AddrOf(blocks, inodes[i], s) == 0
    ensures var ind := inodes[i].addrs[INDIRECT];
            var r := blocks[ind := PutWord(blocks[ind], s - INDIRECT - 1, b)];
            && Owned(sb, r, inodes, owner[b := (i, s)])
            && forall t :: 0 <= t < SLOTS ==> AddrOf(r, inodes[i], t) == if t == s then b else AddrOf(blocks, inodes[i], t)
  {
    var ind := inodes[i].addrs[INDIRECT];
    var r := blocks[ind := PutWord(blocks[ind], s - INDIRECT - 1, b)];
    assert AddrOf(blocks, inodes[i], INDIRECT) == ind;
    assert ind in owner && owner[ind] == (i, INDIRECT) && sb.nmeta <= ind;
    SameMarks(sb, blocks, r, owner, {b});
    hide Found, Marked;
    forall j, t | 0 <= j < |inodes| && 0 <= t < SLOTS
      ensures AddrOf(r, inodes[j], t) == if j == i && t == s then b else AddrOf(blocks, inodes[j], t)
    {
      if j != i {
        SameAddr(blocks, r, inodes, owner, j, t);
      }
    }
    hide AddrOf, Named;
    Adopt(sb, blocks, inodes, r, inodes, owner, i, s, b);
  }

  /** Writing data blocks leaves the bitmap alone. */
  lemma SameMarks(sb: Superblock, blocks: seq<Block>, r: seq<Block>, owner: Owner, extra: set<nat>)
    requires ValidSb(sb) && |blocks| == |r| == sb.size && Marked(sb, blocks, owner, extra)
    requires forall x :: sb.bmapstart <= x < sb.nmeta ==> r[x] == blocks[x]
    ensures Marked(sb, r, owner, extra)
  {
    forall b: nat | b < sb.size ensures InUse(sb, r, b) == InUse(sb, blocks, b) {
      DivMono(b, sb.size);
    }
  }

  /** Inode i gained blocks in some of the `slots`; everything that was owned is still owned and,
      but for i's indirect block, has the same contents; no inode block changed. */
  ghost predicate Grown(sb: Superblock, b0: seq<Block>, in0: seq<Inode>, ow0: Owner,
                        b1: seq<Block>, in1: seq<Inode>, ow1: Owner, i: nat, slots: set<nat>)
  {
    && Shape(sb, b0, in0) && i < |in0| == |in1| && Owned(sb, b1, in1, ow1)
    && in1 == in0[i := in0[i].(addrs := in1[i].addrs)]
    && (forall a :: a in ow0 ==> a in ow1 && ow1[a] == ow0[a])
    && (forall a :: a in ow0 && a < sb.size && ow0[a] != (i, INDIRECT) ==> b1[a] == b0[a])
    && (forall x :: 0 <= x < sb.bmapstart ==> b1[x] == b0[x])
    && (forall s :: 0 <= s < SLOTS && (s !in slots || AddrOf(b0, in0[i], s) != 0) ==>
          AddrOf(b1, in1[i], s) == AddrOf(b0, in0[i], s))
  }

  lemma GrownNot(sb: Superblock, b0: seq<Block>, in0: seq<Inode>, ow0: Owner, i: nat)
    requires Owned(sb, b0, in0, ow0) && i < |in0|
    ensures forall slots :: Grown(sb, b0, in0, ow0, b0, in0, ow0, i, slots)
  {
  }

  lemma GrownIn(sb: Superblock, b0: seq<Block>, in0: seq<Inode>, ow0: Owner,
                b1: seq<Block>, in1: seq<Inode>, ow1: Owner, i: nat, slots: set<nat>, more: set<nat>)
    requires Grown(sb, b0, in0, ow0, b1, in1, ow1, i, slots) && slots <= more
    ensures Grown(sb, b0, in0, ow0, b1, in1, ow1, i, more)
  {
  }

  lemma GrownTwice(sb: Superblock, b0: seq<Block>, in0: seq<Inode>, ow0: Owner, b1: seq<Block>, in1: seq<Inode>, ow1: Owner,
                   b2: seq<Block>, in2: seq<Inode>, ow2: Owner, i: nat, slots: set<nat>, more: set<nat>)
    requires Owned(sb, b0, in0, ow0)
    requires Grown(sb, b0, in0, ow0, b1, in1, ow1, i, slots) && Grown(sb, b1, in1, ow1, b2, in2, ow2, i, more)
    ensures Grown(sb, b0, in0, ow0, b2, in2, ow2, i, slots + more)
  {
  }

  lemma GrowDirect(sb: Superblock, b1: seq<Block>, b0: seq<Block>, inodes: seq<Inode>, owner: Owner, i: nat, s: nat, b: Uint)
    requires Owned(sb, b0, inodes, owner) && b < sb.size && !InUse(sb, b0, b) && b1 == Taken(sb, b0, b)
    requires i < |inodes| && s <= INDIRECT && inodes[i].addrs[s] == 0
    ensures b != 0
    ensures Grown(sb, b0, inodes, owner, b1, inodes[i := inodes[i].(addrs := inodes[i].addrs[s := b])], owner[b := (i, s)], i, {s})
  {
    hide Taken, ZeroBlock, InUse, Named, Found, Marked, AddrOf;
    TakenKeeps(sb, b0, inodes, owner, b);
    FreeBlock(sb, b0, inodes, owner, b);
    AdoptDirect(sb, b1, inodes, owner, i, s, b);
    AddrCases(b0, inodes[i], s);
    forall x | 0 <= x < sb.bmapstart ensures b1[x] == b0[x] {
      TakenBlocks(sb, b0, b, x);
    }
  }

  lemma IndirectOwned(sb: Superblock, blocks: seq<Block>, inodes: seq<Inode>, owner: Owner, i: nat)
    requires Owned(sb, blocks, inodes, owner) && i < |inodes| && inodes[i].addrs[INDIRECT] != 0
    ensures inodes[i].addrs[INDIRECT] in owner && owner[inodes[i].addrs[INDIRECT]] == (i, INDIRECT)
    ensures sb.nmeta <= inodes[i].addrs[INDIRECT] < sb.size
  {
    assert AddrOf(blocks, inodes[i], INDIRECT) == inodes[i].addrs[INDIRECT];
  }

  lemma GrowEntry(sb: Superblock, b1: seq<Block>, b0: seq<Block>, inodes: seq<Inode>, owner: Owner, i: nat, s: nat, b: Uint)
    requires Owned(sb, b0, inodes, owner) && b < sb.size && !InUse(sb, b0, b) && b1 == Taken(sb, b0, b)
    requires i < |inodes| && INDIRECT < s < SLOTS && inodes[i].addrs[INDIRECT] != 0 && AddrOf(b0, inodes[i], s) == 0
    ensures b != 0 && inodes[i].addrs[INDIRECT] < sb.size
    ensures var ind := inodes[i].addrs[INDIRECT];
            var b2 := b1[ind := PutWord(b1[ind], s - INDIRECT - 1, b)];
            Grown(sb, b0, inodes, owner, b2, inodes, owner[b := (i, s)], i, {s}) && AddrOf(b2, inodes[i], s) == b
  {
    hide Taken, ZeroBlock, InUse, Named, Found, Marked, AddrOf, PutWord;
    TakenKeeps(sb, b0, inodes, owner, b);
    FreeBlock(sb, b0, inodes, owner, b);
    AdoptIndirect(sb, b1, inodes, owner, i, s, b);
    IndirectOwned(sb, b0, inodes, owner, i);
    forall x | 0 <= x < sb.bmapstart ensures b1[x] == b0[x] {
      TakenBlocks(sb, b0, b, x);
    }
    assert inodes[i := inodes[i]] == inodes;
  }

  // ---- bytes ----

  /** Inode blocks 0..ceil(len/BSIZE) are there, and no others; the indirect block only if needed. */
  ghost predicate Extent(blocks: seq<Block>, ino: Inode, len: nat)
    requires ino.addrs[INDIRECT] < |blocks|
  {
    && len <= MAXBYTES
    && (forall bn :: 0 <= bn < MAXFILE ==> (AddrOf(blocks, ino, Slot(bn)) != 0 <==> bn * 512 < len))
    && (ino.addrs[INDIRECT] != 0 <==> DIRECTBYTES < len)
  }

  ghost predicate InRange(blocks: seq<Block>, ino: Inode)
    requires ino.addrs[INDIRECT] < |blocks|
  {
    forall s :: 0 <= s < SLOTS ==> AddrOf(blocks, ino, s) < |blocks|
  }

  /** Byte k of a file. */
  function ByteAt(blocks: seq<Block>, ino: Inode, k: nat): Byte
    requires ino.addrs[INDIRECT] < |blocks| && k < MAXBYTES
    requires AddrOf(blocks, ino, Slot(k / 512)) < |blocks|
  {
    blocks[AddrOf(blocks, ino, Slot(k / 512))][k % 512]
  }

  /** The first len bytes of a file. */
  ghost function Bytes(blocks: seq<Block>, ino: Inode, len: nat): (f: seq<Byte>)
    requires ino.addrs[INDIRECT] < |blocks| && InRange(blocks, ino) && len <= MAXBYTES
    ensures |f| == len && forall k :: 0 <= k < len ==> f[k] == ByteAt(blocks, ino, k)
  {
    seq(len, k requires 0 <= k < len => ByteAt(blocks, ino, k))
  }

  /** An inode whose blocks hold exactly the bytes f. */
  ghost predicate IsFile(blocks: seq<Block>, ino: Inode, f: seq<Byte>) {
    && ino.addrs[INDIRECT] < |blocks| && InRange(blocks, ino)
    && Extent(blocks, ino, |f|) && Bytes(blocks, ino, |f|) == f
  }

  /** Overwriting f from off on, growing it if the data runs past its end. */
  ghost function Splice(f: seq<Byte>, off: nat, data: seq<Byte>): (r: seq<Byte>)
    requires off <= |f|
  {
    f[..off] + data + if off + |data| < |f| then f[off + |data|..] else []
  }

  lemma SpliceMeaning(f: seq<Byte>, off: nat, data: seq<Byte>)
    requires off <= |f|
    ensures |Splice(f, off, data)| == Max(|f|, off + |data|)
    ensures forall k :: 0 <= k < |Splice(f, off, data)| ==>
      Splice(f, off, data)[k] == if off <= k < off + |data| then data[k - off] else f[k]
  {
  }

  lemma SpliceMore(f: seq<Byte>, off: nat, data: seq<Byte>, more: seq<Byte>)
    requires off <= |f|
    ensures off + |data| <= |Splice(f, off, data)|
    ensures Splice(Splice(f, off, data), off + |data|, more) == Splice(f, off, data + more)
  {
    SpliceMeaning(f, off, data);
    SpliceMeaning(f, off, data + more);
    SpliceMeaning(Splice(f, off, data), off + |data|, more);
  }

  lemma OwnedInRange(sb: Superblock, blocks: seq<Block>, inodes: seq<Inode>, owner: Owner, i: nat)
    requires Owned(sb, blocks, inodes, owner) && i < |inodes|
    ensures InRange(blocks, inodes[i])
  {
  }

  /** Neither the addresses nor the data of this inode changed. */
  ghost predicate Untouched(b0: seq<Block>, b1: seq<Block>, ino: Inode)
    requires |b0| == |b1| && ino.addrs[INDIRECT] < |b0|
  {
    forall s :: 0 <= s < SLOTS ==>
      && AddrOf(b1, ino, s) == AddrOf(b0, ino, s)
      && (s != INDIRECT && 0 < AddrOf(b0, ino, s) < |b0| ==> b1[AddrOf(b0, ino, s)] == b0[AddrOf(b0, ino, s)])
  }

  /** An untouched file is the same file. */
  lemma SameFile(b0: seq<Block>, b1: seq<Block>, ino: Inode, len: nat)
    requires |b0| == |b1| && ino.addrs[INDIRECT] < |b0| && Untouched(b0, b1, ino) && InRange(b0, ino)
    requires Extent(b0, ino, len)
    ensures InRange(b1, ino) && Extent(b1, ino, len) && Bytes(b1, ino, len) == Bytes(b0, ino, len)
  {
    hide AddrOf;
    forall k | 0 <= k < len ensures ByteAt(b1, ino, k) == ByteAt(b0, ino, k) {
      assert AddrOf(b0, ino, Slot(k / 512)) != 0;
      assert Slot(k / 512) != INDIRECT;
    }
  }

  lemma UntouchedTwice(b0: seq<Block>, b1: seq<Block>, b2: seq<Block>, ino: Inode)
    requires |b0| == |b1| == |b2| && ino.addrs[INDIRECT] < |b0|
    requires Untouched(b0, b1, ino) && Untouched(b1, b2, ino)
    ensures Untouched(b0, b2, ino)
  {
  }

  /** Growing inode i touches no other inode. */
  lemma GrownOthers(sb: Superblock, b0: seq<Block>, in0: seq<Inode>, ow0: Owner,
                    b1: seq<Block>, in1: seq<Inode>, ow1: Owner, i: nat, slots: set<nat>, j: nat)
    requires Owned(sb, b0, in0, ow0) && Grown(sb, b0, in0, ow0, b1, in1, ow1, i, slots) && j < |in0| && j != i
    ensures in1[j] == in0[j] && Untouched(b0, b1, in0[j])
  {
    forall s | 0 <= s < SLOTS
      ensures AddrOf(b1, in0[j], s) == AddrOf(b0, in0[j], s)
      ensures 0 < AddrOf(b0, in0[j], s) < |b0| ==> b1[AddrOf(b0, in0[j], s)] == b0[AddrOf(b0, in0[j], s)]
    {
      SameAddr(b0, b1, in0, ow0, j, s);
    }
  }

  /** The data inode i already had is still there. */
  lemma GrownData(sb: Superblock, b0: seq<Block>, in0: seq<Inode>, ow0: Owner,
                  b1: seq<Block>, in1: seq<Inode>, ow1: Owner, i: nat, slots: set<nat>, k: nat)
    requires Owned(sb, b0, in0, ow0) && Grown(sb, b0, in0, ow0, b1, in1, ow1, i, slots)
    requires k < MAXBYTES && AddrOf(b0, in0[i], Slot(k / 512)) != 0
    ensures InRange(b0, in0[i]) && InRange(b1, in1[i]) && ByteAt(b1, in1[i], k) == ByteAt(b0, in0[i], k)
  {
    OwnedInRange(sb, b0, in0, ow0, i);
    OwnedInRange(sb, b1, in1, ow1, i);
    hide AddrOf;
    var s := Slot(k / 512);
    var a := AddrOf(b0, in0[i], s);
    assert a in ow0 && ow0[a] == (i, s) && s != INDIRECT;
  }

  /** After bmap(bn) the extent reaches into block bn and no further. */
  lemma GrownExtent(sb: Superblock, b0: seq<Block>, in0: seq<Inode>, ow0: Owner,
                    b1: seq<Block>, in1: seq<Inode>, ow1: Owner, i: nat, slots: set<nat>, bn: nat, len: nat, len': nat)
    requires Grown(sb, b0, in0, ow0, b1, in1, ow1, i, slots) && Extent(b0, in0[i], len)
    requires bn < MAXFILE && bn * 512 <= len <= len' && bn * 512 < len' <= (bn + 1) * 512
    requires slots == if bn < NDIRECT then {bn} else {INDIRECT} + {bn + 1}
    requires AddrOf(b1, in1[i], Slot(bn)) != 0
    ensures Extent(b1, in1[i], len')
  {
    AddrCases(b0, in0[i], INDIRECT);
    AddrCases(b1, in1[i], INDIRECT);
    AddrCases(b1, in1[i], Slot(bn));
    hide AddrOf;
    forall n | 0 <= n < MAXFILE ensures AddrOf(b1, in1[i], Slot(n)) != 0 <==> n * 512 < len' {
      assert AddrOf(b0, in0[i], Slot(n)) != 0 <==> n * 512 < len;
      assert n != bn ==> Slot(n) !in slots;
    }
  }

  /** memmove of `chunk` into a buffer at byte `at`. */
  function Patched(d: Block, at: nat, chunk: seq<Byte>): (r: Block)
    requires at + |chunk| <= BSIZE
    ensures forall k :: 0 <= k < BSIZE ==> r[k] == if at <= k < at + |chunk| then chunk[k - at] else d[k]
  {
    d[..at] + chunk + d[at + |chunk|..]
  }

  /** Rewriting one data block keeps every address and every owner. */
  lemma DataKeeps(sb: Superblock, blocks: seq<Block>, inodes: seq<Inode>, owner: Owner, a: nat, data: Block)
    requires Owned(sb, blocks, inodes, owner) && a in owner && owner[a].1 != INDIRECT
    ensures sb.nmeta <= a < sb.size && Owned(sb, blocks[a := data], inodes, owner)
    ensures forall j, s :: 0 <= j < |inodes| && 0 <= s < SLOTS ==> AddrOf(blocks[a := data], inodes[j], s) == AddrOf(blocks, inodes[j], s)
  {
    var r := blocks[a := data];
    forall j, s | 0 <= j < |inodes| && 0 <= s < SLOTS ensures AddrOf(r, inodes[j], s) == AddrOf(blocks, inodes[j], s) {
      SameAddr(blocks, r, inodes, owner, j, s);
    }
    SameMarks(sb, blocks, r, owner, {});
  }

  /** ... and touches no inode but the owner of that block. */
  lemma DataOthers(sb: Superblock, blocks: seq<Block>, inodes: seq<Inode>, owner: Owner, a: nat, data: Block, j: nat)
    requires Owned(sb, blocks, inodes, owner) && a in owner && owner[a].1 != INDIRECT && j < |inodes| && j != owner[a].0
    ensures a < sb.size && Untouched(blocks, blocks[a := data], inodes[j])
  {
    DataKeeps(sb, blocks, inodes, owner, a, data);
    hide AddrOf;
  }

  /** writei's memmove into block bn of inode i splices the file. */
  lemma DataSplice(sb: Superblock, blocks: seq<Block>, inodes: seq<Inode>, owner: Owner, i: nat,
                   off: nat, chunk: seq<Byte>, len: nat, was: seq<Byte>)
    requires Owned(sb, blocks, inodes, owner) && i < |inodes|
    requires off < MAXBYTES && |chunk| <= 512 - off % 512 && off <= |was| && off + |chunk| <= len
    requires len == if off + |chunk| > |was| then off + |chunk| else |was|
    requires Extent(blocks, inodes[i], len) && AddrOf(blocks, inodes[i], Slot(off / 512)) != 0
    requires InRange(blocks, inodes[i]) && forall k :: 0 <= k < |was| ==> ByteAt(blocks, inodes[i], k) == was[k]
    ensures var a := AddrOf(blocks, inodes[i], Slot(off / 512));
            var r := blocks[a := Patched(blocks[a], off % 512, chunk)];
            && Owned(sb, r, inodes, owner) && InRange(r, inodes[i]) && Extent(r, inodes[i], len)
            && Bytes(r, inodes[i], len) == Splice(was, off, chunk)
  {
    var s := Slot(off / 512);
    var a := AddrOf(blocks, inodes[i], s);
    var data := Patched(blocks[a], off % 512, chunk);
    var r := blocks[a := data];
    assert a in owner && owner[a] == (i, s);
    DataKeeps(sb, blocks, inodes, owner, a, data);
    OwnedInRange(sb, r, inodes, owner, i);
    hide AddrOf, Patched, Splice;
    SpliceMeaning(was, off, chunk);
    forall k | 0 <= k < len ensures Bytes(r, inodes[i], len)[k] == Splice(was, off, chunk)[k] {
      SplicedByte(blocks, inodes[i], a, data, off, chunk, was, k);
      if k / 512 != off / 512 {
        assert AddrOf(blocks, inodes[i], Slot(k / 512)) != 0;
        assert owner[AddrOf(blocks, inodes[i], Slot(k / 512))] == (i, Slot(k / 512));
      }
    }
  }

  lemma SplicedByte(blocks: seq<Block>, ino: Inode, a: nat, data: Block, off: nat, chunk: seq<Byte>, was: seq<Byte>, k: nat)
    requires ino.addrs[INDIRECT] < |blocks| && InRange(blocks, ino) && off <= |was| && |chunk| <= 512 - off % 512
    requires off < MAXBYTES && a == AddrOf(blocks, ino, Slot(off / 512))
    requires data == Patched(blocks[a], off % 512, chunk)
    requires k < MAXBYTES && (k < |was| ==> ByteAt(blocks, ino, k) == was[k])
    requires k < Max(|was|, off + |chunk|)
    ensures |Splice(was, off, chunk)| == Max(|was|, off + |chunk|)
    ensures k / 512 == off / 512 ==> data[k % 512] == Splice(was, off, chunk)[k]
    ensures k / 512 != off / 512 ==> k < |was| && was[k] == Splice(was, off, chunk)[k]
  {
    SpliceMeaning(was, off, chunk);
  }

  /** The slots bmap may fill for block bn. */
  function BmapSlots(bn: nat): set<nat> {
    if bn < NDIRECT then {bn} else {INDIRECT} + {bn + 1}
  }

  function Max(a: nat, b: nat): nat {
    if a > b then a else b
  }

  lemma ExtentSameBlock(blocks: seq<Block>, ino: Inode, bn: nat, len: nat, len': nat)
    requires ino.addrs[INDIRECT] < |blocks| && Extent(blocks, ino, len) && bn < MAXFILE
    requires bn * 512 < len <= len' <= (bn + 1) * 512
    ensures Extent(blocks, ino, len')
  {
    hide AddrOf;
  }

  lemma OldBytes(sb: Superblock, b0: seq<Block>, in0: seq<Inode>, ow0: Owner,
                 b1: seq<Block>, in1: seq<Inode>, ow1: Owner, i: nat, slots: set<nat>, was: seq<Byte>)
    requires Owned(sb, b0, in0, ow0) && Grown(sb, b0, in0, ow0, b1, in1, ow1, i, slots)
    requires InRange(b0, in0[i]) && Extent(b0, in0[i], |was|) && Bytes(b0, in0[i], |was|) == was && InRange(b1, in1[i])
    ensures forall k :: 0 <= k < |was| ==> ByteAt(b1, in1[i], k) == was[k]
  {
    hide AddrOf, Named, Found, Marked, ByteAt;
    forall k | 0 <= k < |was| ensures ByteAt(b1, in1[i], k) == was[k] {
      assert (k / 512) * 512 < |was|;
      GrownData(sb, b0, in0, ow0, b1, in1, ow1, i, slots, k);
      assert was[k] == ByteAt(b0, in0[i], k);
    }
  }

  /** What bmap(off / BSIZE) leaves to writei: room for m bytes at off. */
  lemma ChunkReady(sb: Superblock, b0: seq<Block>, in0: seq<Inode>, ow0: Owner,
                   b1: seq<Block>, in1: seq<Inode>, ow1: Owner, i: nat, off: nat, m: nat, len: nat)
    requires Grown(sb, b0, in0, ow0, b1, in1, ow1, i, BmapSlots(off / 512))
    requires 0 < m <= 512 - off % 512 && off <= len && off + m <= MAXBYTES && Extent(b0, in0[i], len)
    requires AddrOf(b1, in1[i], Slot(off / 512)) != 0
    requires AddrOf(b0, in0[i], Slot(off / 512)) != 0 ==> b1 == b0 && in1 == in0
    ensures Extent(b1, in1[i], Max(len, off + m))
    ensures off < len ==> in1 == in0
  {
    hide AddrOf, Named, Found, Marked;
    var bn := off / 512;
    if bn * 512 < len {
      assert AddrOf(b0, in0[i], Slot(bn)) != 0;
      if off + m > len {
        ExtentSameBlock(b0, in0[i], bn, len, off + m);
      }
    } else {
      GrownExtent(sb, b0, in0, ow0, b1, in1, ow1, i, BmapSlots(bn), bn, len, off + m);
    }
  }

  lemma SlotOwner(sb: Superblock, blocks: seq<Block>, inodes: seq<Inode>, owner: Owner, i: nat, s: nat)
    requires Owned(sb, blocks, inodes, owner) && i < |inodes| && s < SLOTS && AddrOf(blocks, inodes[i], s) != 0
    ensures AddrOf(blocks, inodes[i], s) in owner && owner[AddrOf(blocks, inodes[i], s)] == (i, s)
    ensures sb.nmeta <= AddrOf(blocks, inodes[i], s) < sb.size
  {
  }

  /** Writing an inode block touches no file. */
  lemma InodeBlockKeeps(sb: Superblock, blocks: seq<Block>, inodes: seq<Inode>, owner: Owner, x: nat, data: Block)
    requires Owned(sb, blocks, inodes, owner) && x < sb.bmapstart
    ensures x < sb.size && Owned(sb, blocks[x := data], inodes, owner)
    ensures forall j :: 0 <= j < |inodes| ==> Untouched(blocks, blocks[x := data], inodes[j])
  {
    var r := blocks[x := data];
    forall j, s | 0 <= j < |inodes| && 0 <= s < SLOTS
      ensures AddrOf(r, inodes[j], s) == AddrOf(blocks, inodes[j], s)
      ensures 0 < AddrOf(blocks, inodes[j], s) < |blocks| ==> r[AddrOf(blocks, inodes[j], s)] == blocks[AddrOf(blocks, inodes[j], s)]
    {
      SameAddr(blocks, r, inodes, owner, j, s);
    }
    SameMarks(sb, blocks, r, owner, {});
  }

  /** Only the addresses of an inode matter to its blocks. */
  lemma SameAddrs(sb: Superblock, blocks: seq<Block>, inodes: seq<Inode>, owner: Owner, i: nat, ino: Inode)
    requires Owned(sb, blocks, inodes, owner) && i < |inodes| && ino.addrs == inodes[i].addrs
    ensures Owned(sb, blocks, inodes[i := ino], owner)
    ensures forall s :: 0 <= s < SLOTS ==> AddrOf(blocks, ino, s) == AddrOf(blocks, inodes[i], s)
  {
    assert forall s :: 0 <= s < SLOTS ==> AddrOf(blocks, ino, s) == AddrOf(blocks, inodes[i], s);
    hide AddrOf, InUse;
    assert Named(blocks, inodes[i := ino], owner);
    assert Found(sb, blocks, inodes[i := ino], owner);
  }

  // ---- itrunc ----

  /** The inode with no blocks left. */
  function Emptied(ino: Inode): Inode {
    ino.(size := 0, addrs := seq(13, _ => 0))
  }

  /** The blocks in the given slots of an inode. */
  ghost function BlocksIn(blocks: seq<Block>, ino: Inode, slots: set<nat>): set<nat>
    requires ino.addrs[INDIRECT] < |blocks| && forall s :: s in slots ==> s < SLOTS
  {
    set s | s in slots && AddrOf(blocks, ino, s) != 0 :: AddrOf(blocks, ino, s) as nat
  }

  ghost function Without(owner: Owner, i: nat): Owner {
    map a | a in owner && owner[a].0 != i :: owner[a]
  }

  ghost function UpTo(n: nat): (r: set<nat>)
    ensures forall s: nat :: s in r <==> s < n
  {
    if n == 0 then {} else UpTo(n - 1) + {n - 1}
  }

  /** itrunc's starting point: seen without inode i's blocks, everything is in order but for those
      blocks still being marked. */
  lemma BeginTrunc(sb: Superblock, blocks: seq<Block>, inodes: seq<Inode>, owner: Owner, i: nat)
    requires Owned(sb, blocks, inodes, owner) && i < |inodes|
    ensures var ins := inodes[i := Emptied(inodes[i])];
            && Shape(sb, blocks, ins) && Named(blocks, ins, Without(owner, i)) && Found(sb, blocks, ins, Without(owner, i))
            && Marked(sb, blocks, Without(owner, i), BlocksIn(blocks, inodes[i], UpTo(SLOTS)))
  {
    var ins, rest := inodes[i := Emptied(inodes[i])], Without(owner, i);
    forall s | 0 <= s < SLOTS ensures AddrOf(blocks, ins[i], s) == 0 {
    }
    hide AddrOf, InUse;
    assert Named(blocks, ins, rest);
    assert Found(sb, blocks, ins, rest);
    forall b: nat | b < sb.size
      ensures b in owner <==> b in rest || b in BlocksIn(blocks, inodes[i], UpTo(SLOTS))
    {
      if b in owner && owner[b].0 == i {
        assert AddrOf(blocks, inodes[i], owner[b].1) == b && owner[b].1 in UpTo(SLOTS);
      }
    }
  }

  /** Freeing the block in slot s: it is marked, so bfree does not panic, and it leaves the set. */
  lemma TruncStep(sb: Superblock, b0: seq<Block>, inodes: seq<Inode>, owner: Owner, i: nat, blocks: seq<Block>, slots: set<nat>, s: nat)
    requires Owned(sb, b0, inodes, owner) && i < |inodes| && s in slots && forall t :: t in slots ==> t < SLOTS
    requires |blocks| == |b0| && Marked(sb, blocks, Without(owner, i), BlocksIn(b0, inodes[i], slots))
    requires AddrOf(b0, inodes[i], s) != 0
    ensures var a := AddrOf(b0, inodes[i], s);
            && sb.nmeta <= a < sb.size && sb.bmapstart + a / BPB < sb.nmeta && InUse(sb, blocks, a)
            && Marked(sb, Mark(blocks, sb.bmapstart, a, false), Without(owner, i), BlocksIn(b0, inodes[i], slots - {s}))
  {
    var a := AddrOf(b0, inodes[i], s);
    SlotOwner(sb, b0, inodes, owner, i, s);
    DivMono(a, sb.size);
    assert a in BlocksIn(b0, inodes[i], slots);
    forall t | t in slots && t != s && AddrOf(b0, inodes[i], t) != 0 ensures AddrOf(b0, inodes[i], t) != a {
      SlotOwner(sb, b0, inodes, owner, i, t);
    }
    var r := Mark(blocks, sb.bmapstart, a, false);
    assert a !in Without(owner, i);
    hide AddrOf, Mark, Used;
    assert BlocksIn(b0, inodes[i], slots - {s}) == BlocksIn(b0, inodes[i], slots) - {a};
    forall c: nat | c < sb.size
      ensures InUse(sb, r, c) <==> c < sb.nmeta || c in Without(owner, i) || c in BlocksIn(b0, inodes[i], slots - {s})
    {
      DivMono(c, sb.size);
      MarkMeaning(blocks, sb.bmapstart, a, false, c);
      assert InUse(sb, r, c) == (c != a && InUse(sb, blocks, c));
      assert c in BlocksIn(b0, inodes[i], slots - {s}) <==> c in BlocksIn(b0, inodes[i], slots) && c != a;
    }
  }

  /** Outside the bitmap nothing changed: data, indirect and inode blocks are as they were. */
  ghost predicate SameOutsideBitmap(sb: Superblock, b0: seq<Block>, b1: seq<Block>) {
    |b0| == |b1| && forall x :: 0 <= x < |b0| && !(sb.bmapstart <= x < sb.nmeta) ==> b1[x] == b0[x]
  }

  /** itrunc's end: the blocks are gone from the bitmap, the inode and the owners alike. */
  lemma EndTrunc(sb: Superblock, b0: seq<Block>, inodes: seq<Inode>, owner: Owner, i: nat, blocks: seq<Block>)
    requires Owned(sb, b0, inodes, owner) && i < |inodes| && SameOutsideBitmap(sb, b0, blocks)
    requires Marked(sb, blocks, Without(owner, i), {})
    ensures Owned(sb, blocks, inodes[i := Emptied(inodes[i])], Without(owner, i))
    ensures forall j :: 0 <= j < |inodes| && j != i ==> Untouched(b0, blocks, inodes[j])
  {
    BeginTrunc(sb, b0, inodes, owner, i);
    var ins, rest := inodes[i := Emptied(inodes[i])], Without(owner, i);
    forall j, s | 0 <= j < |ins| && 0 <= s < SLOTS
      ensures AddrOf(blocks, ins[j], s) == AddrOf(b0, ins[j], s)
      ensures j != i && 0 < AddrOf(b0, ins[j], s) < |b0| ==> blocks[AddrOf(b0, ins[j], s)] == b0[AddrOf(b0, ins[j], s)]
    {
      SameAddr(b0, blocks, ins, rest, j, s);
      if AddrOf(b0, ins[j], s) != 0 {
        assert AddrOf(b0, ins[j], s) in rest;
      }
    }
    hide AddrOf, InUse;
    assert Named(blocks, ins, rest) && Found(sb, blocks, ins, rest);
    forall j | 0 <= j < |inodes| && j != i ensures Untouched(b0, blocks, inodes[j]) {
      assert ins[j] == inodes[j];
    }
  }
}
