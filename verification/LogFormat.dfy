/** The on-disk log of log.c: a header block naming home blocks, then the logged copies.
    `Redo` says what recovery would make of a disk; the lemmas say how one-block writes move it. */
module LogFormat {
  import opened Sequences
  import opened Blocks

  const MAXOPBLOCKS: nat := 10
  const LOGSIZE: nat := 30

  /** A disk as the log reads it: the list its header block holds, and the blocks themselves. */
  datatype Disk = Disk(header: seq<nat>, blocks: seq<Block>)

  /** log.start, log.size and the number of blocks on the device. */
  datatype Layout = Layout(start: nat, size: nat, blocks: nat)

  ghost predicate Fits(l: Layout) {
    1 <= l.size && l.start + l.size <= l.blocks <= WORD_RANGE
  }

  /** A block that lives outside the log area. */
  predicate Home(l: Layout, b: nat) {
    b < l.blocks && !(l.start <= b < l.start + l.size)
  }

  /** Room for n entries in the header's array and n blocks in the log. */
  predicate Room(l: Layout, n: nat) {
    n <= LOGSIZE && n <= l.size - 1
  }

  /** Different blocks outside the log. */
  ghost predicate Listable(l: Layout, bs: seq<nat>) {
    Distinct(bs) && forall i :: 0 <= i < |bs| ==> Home(l, bs[i])
  }

  /** A list of blocks that fits the log and stays out of it. */
  ghost predicate Loggable(l: Layout, bs: seq<nat>) {
    Room(l, |bs|) && Listable(l, bs)
  }

  /** Any disk the kernel can leave behind. */
  ghost predicate WellFormed(l: Layout, d: Disk) {
    Fits(l) && |d.blocks| == l.blocks && Loggable(l, d.header)
  }

  /** Block b after the first n listed log blocks have been copied home. */
  ghost function RedoFirst(l: Layout, d: Disk, n: nat, b: nat): Block
    requires n <= |d.header| && l.start + n < |d.blocks| && b < |d.blocks|
  {
    if n == 0 then d.blocks[b]
    else if d.header[n - 1] == b then d.blocks[l.start + n]
    else RedoFirst(l, d, n - 1, b)
  }

  /** The contents recovery gives block b. */
  ghost function Redo(l: Layout, d: Disk, b: nat): Block
    requires WellFormed(l, d) && b < |d.blocks|
  {
    RedoFirst(l, d, |d.header|, b)
  }

  lemma {:induction false} RedoFirstListed(l: Layout, d: Disk, n: nat, i: nat)
    requires i < n <= |d.header| && l.start + n < |d.blocks| && d.header[i] < |d.blocks| && Distinct(d.header)
    ensures RedoFirst(l, d, n, d.header[i]) == d.blocks[l.start + 1 + i]
  {
    if i < n - 1 {
      RedoFirstListed(l, d, n - 1, i);
    }
  }

  lemma {:induction false} RedoFirstUnlisted(l: Layout, d: Disk, n: nat, b: nat)
    requires n <= |d.header| && l.start + n < |d.blocks| && b < |d.blocks|
    requires b !in d.header[..n]
    ensures RedoFirst(l, d, n, b) == d.blocks[b]
  {
    if n > 0 {
      assert d.header[n - 1] in d.header[..n];
      assert forall x :: x in d.header[..n - 1] ==> x in d.header[..n];
      RedoFirstUnlisted(l, d, n - 1, b);
    }
  }

  /** What Redo means: a listed block comes from its log slot, any other from its home. */
  lemma RedoMeaning(l: Layout, d: Disk, b: nat)
    requires WellFormed(l, d) && b < l.blocks
    ensures forall i :: 0 <= i < |d.header| && d.header[i] == b ==> Redo(l, d, b) == d.blocks[l.start + 1 + i]
    ensures b !in d.header ==> Redo(l, d, b) == d.blocks[b]
  {
    forall i | 0 <= i < |d.header| && d.header[i] == b
      ensures Redo(l, d, b) == d.blocks[l.start + 1 + i]
    {
      RedoFirstListed(l, d, |d.header|, i);
    }
    if b !in d.header {
      assert d.header[..|d.header|] == d.header;
      RedoFirstUnlisted(l, d, |d.header|, b);
    }
  }

  /** A one-block write, which the disk does or does not; `Head` also says what list it stores. */
  datatype Write = Data(bno: nat, data: Block) | Head(list: seq<nat>, data: Block)

  function Target(l: Layout, w: Write): nat {
    if w.Data? then w.bno else l.start
  }

  function Apply(l: Layout, d: Disk, w: Write): (r: Disk)
    requires Target(l, w) < |d.blocks|
  {
    match w
    case Data(bno, data) => Disk(d.header, d.blocks[bno := data])
    case Head(list, data) => Disk(list, d.blocks[l.start := data])
  }

  /** With nothing listed, filling a log slot changes no recovered block. */
  lemma SlotWrite(l: Layout, d: Disk, w: Write)
    requires WellFormed(l, d) && d.header == []
    requires w.Data? && l.start < w.bno < l.start + l.size
    ensures WellFormed(l, Apply(l, d, w))
    ensures forall b: nat :: Home(l, b) ==> Redo(l, Apply(l, d, w), b) == Redo(l, d, b) == d.blocks[b]
  {
  }

  /** The commit point: listing the filled slots switches every recovered block at once. */
  lemma HeaderWrite(l: Layout, d: Disk, w: Write, after: seq<Block>)
    requires WellFormed(l, d) && w.Head? && Loggable(l, w.list) && |after| == l.blocks
    requires forall i :: 0 <= i < |w.list| ==> d.blocks[l.start + 1 + i] == after[w.list[i]]
    requires forall b: nat :: Home(l, b) && b !in w.list ==> d.blocks[b] == after[b]
    ensures WellFormed(l, Apply(l, d, w))
    ensures forall b: nat :: Home(l, b) ==> Redo(l, Apply(l, d, w), b) == after[b]
  {
    var e := Apply(l, d, w);
    forall b: nat | Home(l, b) ensures Redo(l, e, b) == after[b] {
      RedoMeaning(l, e, b);
      if b in w.list {
        var i :| 0 <= i < |w.list| && w.list[i] == b;
        assert Redo(l, e, b) == e.blocks[l.start + 1 + i] == d.blocks[l.start + 1 + i];
      }
    }
  }

  /** Copying a listed slot home is idempotent under recovery. */
  lemma InstallWrite(l: Layout, d: Disk, i: nat)
    requires WellFormed(l, d) && i < |d.header|
    ensures Home(l, d.header[i])
    ensures var e := Apply(l, d, Data(d.header[i], d.blocks[l.start + 1 + i]));
            WellFormed(l, e) && forall b: nat :: Home(l, b) ==> Redo(l, e, b) == Redo(l, d, b)
  {
    var e := Apply(l, d, Data(d.header[i], d.blocks[l.start + 1 + i]));
    forall b: nat | Home(l, b) ensures Redo(l, e, b) == Redo(l, d, b) {
      RedoMeaning(l, d, b);
      RedoMeaning(l, e, b);
      if b in d.header {
        var j :| 0 <= j < |d.header| && d.header[j] == b;
        assert Redo(l, d, b) == d.blocks[l.start + 1 + j];
        assert Redo(l, e, b) == e.blocks[l.start + 1 + j];
      }
    }
  }

  /** Erasing the list once everything is home changes no recovered block. */
  lemma ClearWrite(l: Layout, d: Disk, w: Write)
    requires WellFormed(l, d) && w.Head? && w.list == []
    requires forall i :: 0 <= i < |d.header| ==> d.blocks[d.header[i]] == d.blocks[l.start + 1 + i]
    ensures WellFormed(l, Apply(l, d, w))
    ensures forall b: nat :: Home(l, b) ==>
              Redo(l, Apply(l, d, w), b) == Redo(l, d, b) == Apply(l, d, w).blocks[b] == d.blocks[b]
  {
    var e := Apply(l, d, w);
    forall b: nat | Home(l, b) ensures Redo(l, e, b) == Redo(l, d, b) == e.blocks[b] == d.blocks[b] {
      RedoMeaning(l, d, b);
      if b in d.header {
        var j :| 0 <= j < |d.header| && d.header[j] == b;
        assert Redo(l, d, b) == d.blocks[l.start + 1 + j];
      }
    }
  }
}
