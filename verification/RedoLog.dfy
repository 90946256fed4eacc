/** log.c itself, running on the buffer cache: which block writes its routines issue, in order. */
module RedoLog {
  import opened Sequences
  import opened Blocks
  import opened LogFormat
  import opened LogHeader
  import P = LogProtocol
  import opened BufferRing
  import Ring = BufferRingProofs
  import opened Bio

  /** write_log has copied the first `tail` listed blocks of `was`, giving the map `now`. */
  ghost predicate SlotsDone(l: Layout, lh: seq<nat>, was: seq<Block>, now: seq<Block>, ws: seq<Written>, tail: nat) {
    && |was| == |now| == l.blocks && Fits(l) && Loggable(l, lh) && tail == |ws| <= |lh|
    && (forall k :: 0 <= k < tail ==> ws[k] == (l.start + 1 + k, was[lh[k]]))
    && (forall b: nat :: Home(l, b) ==> now[b] == was[b])
    && (forall k :: 0 <= k < tail ==> now[l.start + 1 + k] == was[lh[k]])
  }

  lemma SlotsStep(l: Layout, lh: seq<nat>, was: seq<Block>, now: seq<Block>, ws: seq<Written>, tail: nat, w: Written)
    requires SlotsDone(l, lh, was, now, ws, tail) && tail < |lh| && w == (l.start + 1 + tail, now[lh[tail]])
    ensures SlotsDone(l, lh, was, now[w.0 := w.1], ws + [w], tail + 1)
  {
  }

  /** install_trans has copied the first `tail` log slots of `was` home, giving the map `now`. */
  ghost predicate HomesDone(l: Layout, lh: seq<nat>, was: seq<Block>, now: seq<Block>, ws: seq<Written>, tail: nat) {
    && |was| == |now| == l.blocks && Fits(l) && Loggable(l, lh) && tail == |ws| <= |lh|
    && (forall k :: 0 <= k < tail ==> ws[k] == (lh[k], was[l.start + 1 + k]))
    && (forall b :: 0 <= b < l.blocks && b !in lh ==> now[b] == was[b])
    && (forall k :: 0 <= k < tail ==> now[lh[k]] == was[l.start + 1 + k])
  }

  lemma HomesStep(l: Layout, lh: seq<nat>, was: seq<Block>, now: seq<Block>, ws: seq<Written>, tail: nat, w: Written)
    requires HomesDone(l, lh, was, now, ws, tail) && tail < |lh| && w == (lh[tail], now[l.start + 1 + tail])
    ensures HomesDone(l, lh, was, now[w.0 := w.1], ws + [w], tail + 1)
  {
    assert l.start + 1 + tail !in lh;
  }

  /** ... and these are the block writes since `before`. */
  ghost predicate Slotted(l: Layout, lh: seq<nat>, was: seq<Block>, now: seq<Block>, before: seq<Written>, writes: seq<Written>,
                          ws: seq<Written>, tail: nat) {
    writes == before + ws && SlotsDone(l, lh, was, now, ws, tail)
  }

  lemma SlotsNone(l: Layout, lh: seq<nat>, was: seq<Block>, before: seq<Written>)
    requires |was| == l.blocks && Fits(l) && Loggable(l, lh)
    ensures Slotted(l, lh, was, was, before, before, [], 0)
  {
  }

  lemma SlotsTrace(l: Layout, lh: seq<nat>, was: seq<Block>, now: seq<Block>, before: seq<Written>, writes: seq<Written>, ws: seq<Written>, tail: nat)
    requires Slotted(l, lh, was, now, before, writes, ws, tail)
    ensures writes == before + ws && SlotsDone(l, lh, was, now, ws, tail)
    ensures SlotTrace(l, lh, was, ws) && |ws| == tail <= |lh| && forall k :: 0 <= k < |lh| ==> lh[k] < |now|
  {
  }

  lemma SlotsNext(l: Layout, lh: seq<nat>, was: seq<Block>, now: seq<Block>, before: seq<Written>, writes: seq<Written>,
                  ws: seq<Written>, tail: nat, w: Written)
    requires Slotted(l, lh, was, now, before, writes, ws, tail) && tail < |lh| && lh[tail] < |now| && w == (l.start + 1 + tail, now[lh[tail]])
    ensures w.0 < |now| && Slotted(l, lh, was, now[w.0 := w.1], before, writes + [w], ws + [w], tail + 1)
  {
    SlotsStep(l, lh, was, now, ws, tail, w);
    assert before + ws + [w] == before + (ws + [w]);
  }

  ghost predicate Homed(l: Layout, lh: seq<nat>, was: seq<Block>, now: seq<Block>, before: seq<Written>, writes: seq<Written>,
                        ws: seq<Written>, tail: nat) {
    writes == before + ws && HomesDone(l, lh, was, now, ws, tail)
  }

  lemma HomesNone(l: Layout, lh: seq<nat>, was: seq<Block>, before: seq<Written>)
    requires |was| == l.blocks && Fits(l) && Loggable(l, lh)
    ensures Homed(l, lh, was, was, before, before, [], 0)
  {
  }

  lemma HomesTrace(l: Layout, lh: seq<nat>, was: seq<Block>, now: seq<Block>, before: seq<Written>, writes: seq<Written>, ws: seq<Written>, tail: nat)
    requires Homed(l, lh, was, now, before, writes, ws, tail)
    ensures writes == before + ws && HomesDone(l, lh, was, now, ws, tail)
    ensures HomeTrace(l, lh, was, ws) && |ws| == tail <= |lh| && l.start + |lh| < l.blocks == |now|
  {
  }

  lemma HomesNext(l: Layout, lh: seq<nat>, was: seq<Block>, now: seq<Block>, before: seq<Written>, writes: seq<Written>,
                  ws: seq<Written>, tail: nat, w: Written)
    requires Homed(l, lh, was, now, before, writes, ws, tail) && tail < |lh| && l.start + 1 + tail < |now| && w == (lh[tail], now[l.start + 1 + tail])
    ensures w.0 < |now| && Homed(l, lh, was, now[w.0 := w.1], before, writes + [w], ws + [w], tail + 1)
  {
    HomesStep(l, lh, was, now, ws, tail, w);
    assert before + ws + [w] == before + (ws + [w]);
  }

  /** Block writes that copy the first listed blocks of `was` to the log, in order. */
  ghost predicate SlotTrace(l: Layout, lh: seq<nat>, was: seq<Block>, ws: seq<Written>) {
    && |ws| <= |lh|
    && forall k :: 0 <= k < |ws| ==> lh[k] < |was| && ws[k] == (l.start + 1 + k, was[lh[k]])
  }

  /** Block writes that copy the first log slots of `was` home, in order. */
  ghost predicate HomeTrace(l: Layout, lh: seq<nat>, was: seq<Block>, ws: seq<Written>) {
    |ws| <= |lh| && forall k :: 0 <= k < |ws| ==> HomeWrite(l, lh, was, ws[k], k)
  }

  /** The k-th install write: log slot k to its home. */
  ghost predicate HomeWrite(l: Layout, lh: seq<nat>, was: seq<Block>, w: Written, k: nat)
    requires k < |lh|
  {
    l.start + 1 + k < |was| && w == (lh[k], was[l.start + 1 + k])
  }

  ghost predicate WritesList(l: Layout, lh: seq<nat>, w: Written) {
    w.0 == l.start && Listed(w.1) == lh && Readable(w.1)
  }

  /** The block writes of commit() up to some point: log slots, header, home blocks, empty header. */
  ghost predicate CommitWrites(l: Layout, lh: seq<nat>, now: seq<Block>, ws: seq<Written>) {
    var n := |lh|;
    && (forall k :: 0 <= k < n ==> lh[k] < |now|) && |ws| <= P.CommitLength(n)
    && (forall k :: 0 <= k < n && k < |ws| ==> ws[k] == (l.start + 1 + k, now[lh[k]]))
    && (n < |ws| ==> WritesList(l, lh, ws[n]))
    && (forall k :: 0 <= k < n && n + 1 + k < |ws| ==> ws[n + 1 + k] == (lh[k], now[lh[k]]))
    && (2 * n + 1 < |ws| ==> WritesList(l, [], ws[2 * n + 1]))
  }

  /** The block writes of recover_from_log() up to some point. */
  ghost predicate RecoverWrites(l: Layout, lh: seq<nat>, now: seq<Block>, ws: seq<Written>) {
    var n := |lh|;
    && |ws| <= n + 1
    && (forall k :: 0 <= k < n && k < |ws| ==> HomeWrite(l, lh, now, ws[k], k))
    && (n < |ws| ==> WritesList(l, [], ws[n]))
  }

  /** The pinned buffers are exactly those of the listed blocks. */
  ghost predicate Pinned(bufs: seq<Buf>, lh: seq<nat>) {
    && (forall i :: 0 <= i < |bufs| && bufs[i].dirty ==> bufs[i].blockno in lh)
    && (forall b :: b in lh ==> HasDirty(bufs, b))
  }

  ghost predicate HasDirty(bufs: seq<Buf>, b: nat) {
    exists i :: 0 <= i < |bufs| && bufs[i].dirty && bufs[i].blockno == b
  }

  /** Two block maps agree outside the log. */
  ghost predicate Same(l: Layout, v: seq<Block>, w: seq<Block>) {
    |v| == |w| == l.blocks && forall b: nat :: Home(l, b) ==> v[b] == w[b]
  }

  lemma SameSelf(l: Layout, v: seq<Block>)
    requires |v| == l.blocks
    ensures Same(l, v, v)
  {
  }

  /** Buffers others hold locked, by number: none of them is of block b. */
  ghost predicate Apart(held: map<int, Buf>, b: nat) {
    forall i :: i in held ==> held[i].blockno != b
  }

  /** None is of a log block or a listed one. */
  ghost predicate Clear(held: map<int, Buf>, l: Layout, lh: seq<nat>) {
    forall b :: l.start <= b < l.start + l.size || b in lh ==> Apart(held, b)
  }

  /** Locked are the buffers others hold, which stay as they are, and those of this process. */
  ghost predicate LockedAre(bufs: seq<Buf>, held: map<int, Buf>, mine: set<int>) {
    && (forall i :: i in held ==> 0 <= i < |bufs| && bufs[i] == held[i] && i !in mine)
    && (forall i :: 0 <= i < |bufs| ==> (bufs[i].locked <==> i in held || i in mine))
  }

  /** No other buffer is referenced, and those of this process by nobody else. */
  ghost predicate OnlyHeld(bufs: seq<Buf>, held: map<int, Buf>, mine: set<int>) {
    forall i :: 0 <= i < |bufs| && i !in held ==> bufs[i].refcnt == if i in mine then 1 else 0
  }

  lemma PinnedKept(was: seq<Buf>, now: seq<Buf>, b: nat, lh: seq<nat>)
    requires b < |was| == |now| && now == was[b := now[b]] && Pinned(was, lh)
    requires now[b].dirty == was[b].dirty && (was[b].dirty ==> now[b].blockno == was[b].blockno)
    ensures Pinned(now, lh)
  {
    forall x | x in lh ensures HasDirty(now, x) {
      assert HasDirty(was, x);
      var i :| 0 <= i < |was| && was[i].dirty && was[i].blockno == x;
      assert now[i].dirty && now[i].blockno == x;
    }
  }

  class Log {
    const cache: BufferCache
    const l: Layout
    const block: array<Uint>
    var n: nat
    var outstanding: nat
    var committing: bool

    ghost function Repr(): set<object> {
      cache.Repr() + {this, block}
    }

    ghost function Lh(): seq<nat>
      reads this, block
      requires n <= block.Length
    {
      block[..n]
    }

    /** A coherent cache in which `pins` are the blocks not yet home, `held` the buffers other
        processes have locked, or this one outside the routine at hand, and `mine` its own. */
    ghost predicate Busy(pins: seq<nat>, held: map<int, Buf>, mine: set<int>)
      reads this, block, cache, cache.disk, cache.bufs, cache.next, cache.prev
    {
      && cache.Valid() && Fits(l) && |cache.view| == l.blocks
      && block.Length == LOGSIZE && n <= LOGSIZE && cache.bufs.Length == NBUF
      && Pinned(cache.bufs[..], pins) && LockedAre(cache.bufs[..], held, mine)
    }

    ghost predicate Valid(held: map<int, Buf>)
      reads this, block, cache, cache.disk, cache.bufs, cache.next, cache.prev
    {
      block.Length == LOGSIZE && n <= LOGSIZE && Busy(Lh(), held, {}) && Loggable(l, Lh())
    }

    /** Recovered, and with nothing committed that is not home: the header lists nothing. */
    ghost predicate Ready(held: map<int, Buf>)
      reads this, block, cache, cache.disk, cache.bufs, cache.next, cache.prev
    {
      Valid(held) && Erased(cache.view[l.start])
    }

    /** No buffer is referenced but those in `held` and `mine`. */
    ghost predicate Quiet(held: map<int, Buf>, mine: set<int>)
      reads cache.bufs
    {
      OnlyHeld(cache.bufs[..], held, mine)
    }

    /** bread of a block nobody holds; it cannot fail while no other buffer is referenced and either
        the block is pinned (hence cached) or some buffer is neither pinned nor held. */
    method Open(bno: nat, ghost pins: seq<nat>, ghost held: map<int, Buf>, ghost mine: set<int>) returns (b: int)
      requires Busy(pins, held, mine) && bno < l.blocks && Apart(held, bno)
      requires forall i :: i in mine ==> 0 <= i < NBUF && cache.bufs[i].blockno != bno
      modifies cache.bufs
      ensures Busy(pins, held, if b == -1 then mine else mine + {b}) && -1 <= b < NBUF
      ensures b == -1 ==> cache.bufs[..] == old(cache.bufs[..])
      ensures b != -1 ==> b !in mine && cache.bufs[..] == old(cache.bufs[..])[b := cache.bufs[b]]
      ensures b != -1 ==> Is(cache.bufs[b], ROOTDEV, bno) && cache.bufs[b].valid && cache.bufs[b].data == cache.view[bno]
      ensures b != -1 && old(Quiet(held, mine)) ==> Quiet(held, mine + {b})
      ensures old(Quiet(held, mine)) && (bno in pins || |pins| + |held| + |mine| < NBUF) ==> b != -1
    {
      hide Linked, Permutation, Unique, Coherent, Dated, Pinned, LockedAre, OnlyHeld;
      ghost var was := cache.bufs[..];
      NotLocked(was, held, mine, bno);
      b := cache.Bread(bno);
      if b != -1 {
        Freed(was, cache.bufs[..], b, held, mine);
        PinnedKept(was, cache.bufs[..], b, pins);
      } else {
        OneFree(cache.bufs[..], cache.disk.blocks, cache.view, bno, pins, held, mine);
      }
    }

    lemma NotLocked(bufs: seq<Buf>, held: map<int, Buf>, mine: set<int>, bno: nat)
      requires LockedAre(bufs, held, mine) && Apart(held, bno)
      requires forall i :: i in mine ==> 0 <= i < |bufs| && bufs[i].blockno != bno
      ensures forall i :: 0 <= i < |bufs| && Is(bufs[i], ROOTDEV, bno) ==> !bufs[i].locked
    {
    }

    /** bread takes an unlocked buffer. */
    lemma Freed(was: seq<Buf>, now: seq<Buf>, b: nat, held: map<int, Buf>, mine: set<int>)
      requires b < |was| == |now| && LockedAre(was, held, mine) && now == was[b := now[b]] && !was[b].locked && now[b].locked
      ensures b !in mine && LockedAre(now, held, mine + {b})
      ensures OnlyHeld(was, held, mine) && now[b].refcnt == was[b].refcnt + 1 ==> OnlyHeld(now, held, mine + {b})
    {
    }

    /** When bread finds no buffer, they are all pinned or held and the block is not cached. */
    lemma OneFree(bufs: seq<Buf>, disk: seq<Block>, view: seq<Block>, bno: nat, pins: seq<nat>, held: map<int, Buf>, mine: set<int>)
      requires |bufs| == NBUF && Unique(bufs) && Coherent(bufs, disk, view) && Pinned(bufs, pins)
      requires forall i :: 0 <= i < NBUF ==> !Is(bufs[i], ROOTDEV, bno) && !Free(bufs[i])
      ensures OnlyHeld(bufs, held, mine) ==> bno !in pins && |pins| + |held| + |mine| >= NBUF
    {
      if OnlyHeld(bufs, held, mine) {
        assert bno in pins ==> HasDirty(bufs, bno);
        if |pins| + |held| + |mine| < NBUF {
          RoomFor(bufs, pins, held.Keys + mine);
        }
      }
    }

    /** brelse. */
    method Close(b: nat, ghost pins: seq<nat>, ghost held: map<int, Buf>, ghost mine: set<int>)
      requires Busy(pins, held, mine) && b in mine && b < NBUF
      modifies cache.bufs, cache`order, cache`stamp, cache`clock, cache.next, cache.prev
      ensures Busy(pins, held, mine - {b})
      ensures cache.bufs[..] == old(cache.bufs[..])[b := cache.bufs[b]]
      ensures cache.bufs[b].blockno == old(cache.bufs[b].blockno)
      ensures old(Quiet(held, mine)) ==> Quiet(held, mine - {b})
    {
      hide CacheInv, Pinned, Dated;
      ghost var was := cache.bufs[..];
      assert was[b].locked;
      cache.Brelse(b);
      PinnedKept(was, cache.bufs[..], b, pins);
      Unheld(was, cache.bufs[..], b, held, mine);
      hide LockedAre, OnlyHeld;
    }

    lemma Unheld(was: seq<Buf>, now: seq<Buf>, b: nat, held: map<int, Buf>, mine: set<int>)
      requires b < |was| == |now| && LockedAre(was, held, mine) && now == was[b := now[b]] && !now[b].locked && b in mine
      ensures LockedAre(now, held, mine - {b})
      ensures OnlyHeld(was, held, mine) && now[b].refcnt == was[b].refcnt - 1 ==> OnlyHeld(now, held, mine - {b})
    {
    }

    /** Pinned and held buffers together do not exhaust the cache. */
    lemma RoomFor(bufs: seq<Buf>, pins: seq<nat>, held: set<int>)
      requires |bufs| == NBUF && Unique(bufs) && Pinned(bufs, pins) && |pins| + |held| < NBUF
      requires forall i :: 0 <= i < NBUF && bufs[i].dirty ==> bufs[i].dev == ROOTDEV
      ensures exists i :: 0 <= i < NBUF && i !in held && !bufs[i].dirty
    {
      if forall i :: 0 <= i < NBUF && i !in held ==> bufs[i].dirty {
        Pigeons(bufs, pins, held, NBUF);
      }
    }

    lemma {:induction false} Pigeons(bufs: seq<Buf>, pins: seq<nat>, held: set<int>, k: nat)
      requires k <= |bufs| && Unique(bufs)
      requires forall i :: 0 <= i < k && i !in held ==> bufs[i].dev == ROOTDEV && bufs[i].blockno in pins
      ensures k <= |pins| + |held|
      decreases k
    {
      if k > 0 {
        if k - 1 in held {
          Pigeons(bufs, pins, held - {k - 1}, k - 1);
        } else {
          var j :| 0 <= j < |pins| && pins[j] == bufs[k - 1].blockno;
          var rest := pins[..j] + pins[j + 1..];
          forall i | 0 <= i < k - 1 && i !in held ensures bufs[i].blockno in rest {
            assert !Is(bufs[i], bufs[k - 1].dev, bufs[k - 1].blockno);
            var m :| 0 <= m < |pins| && pins[m] == bufs[i].blockno;
            assert rest[if m < j then m else m - 1] == bufs[i].blockno;
          }
          Pigeons(bufs, rest, held, k - 1);
        }
      }
    }

    /** initlog before recovery: an empty list over a fresh cache. */
    constructor (cache: BufferCache, l: Layout)
      requires cache.Valid() && Fits(l) && |cache.view| == l.blocks
      requires forall i :: 0 <= i < NBUF ==> !cache.bufs[i].locked && !cache.bufs[i].dirty
      ensures Valid(map[]) && this.cache == cache && this.l == l && fresh(this) && fresh(block)
      ensures n == 0 && outstanding == 0 && !committing
    {
      this.cache, this.l := cache, l;
      block := new Uint[LOGSIZE](_ => 0);
      n, outstanding, committing := 0, 0, false;
    }

    /** One pass of begin_op's loop: false means the caller goes to sleep. */
    method TryBeginOp() returns (ok: bool)
      modifies this`outstanding
      ensures ok == old(!committing && n + (outstanding + 1) * MAXOPBLOCKS <= LOGSIZE)
      ensures outstanding == old(outstanding) + if ok then 1 else 0
    {
      ok := !committing && n + (outstanding + 1) * MAXOPBLOCKS <= LOGSIZE;
      if ok {
        outstanding := outstanding + 1;
      }
    }

    /** bread and brelse around a read. */
    method ReadBlock(bno: nat, ghost held: map<int, Buf>) returns (ok: bool, data: Block)
      requires Valid(held) && bno < l.blocks && Apart(held, bno)
      modifies cache.bufs, cache`order, cache`stamp, cache`clock, cache.next, cache.prev
      ensures Valid(held)
      ensures ok ==> data == cache.view[bno]
      ensures old(Quiet(held, {}) && (bno in Lh() || n + |held| < NBUF)) ==> ok && Quiet(held, {})
    {
      hide CacheInv, Dated, Pinned, LockedAre, OnlyHeld, Apart, Loggable;
      data := ZeroBlock();
      var b := Open(bno, Lh(), held, {});
      ok := b != -1;
      if ok {
        assert {} + {b} == {b} && {b} - {b} == {};
        data := cache.bufs[b].data;
        Close(b, Lh(), held, {b});
      }
    }

    /** log_write on a held buffer; `ok` is false where the source panics. */
    method LogWrite(b: nat, data: Block, ghost held: map<int, Buf>) returns (ok: bool)
      requires block.Length == LOGSIZE && n <= LOGSIZE && Busy(Lh(), held, {b}) && Loggable(l, Lh()) && b < NBUF
      requires cache.bufs[b].valid && Home(l, cache.bufs[b].blockno)
      modifies cache.bufs, cache`view, block, this`n
      ensures ok == !old(n >= LOGSIZE || n >= l.size - 1 || outstanding < 1)
      ensures cache.bufs[b].blockno == old(cache.bufs[b].blockno)
      ensures !ok ==> n == old(n) && block[..] == old(block[..]) && cache.bufs[..] == old(cache.bufs[..])
      ensures !ok ==> cache.view == old(cache.view)
      ensures ok ==> n <= LOGSIZE && Busy(Lh(), held, {b}) && Loggable(l, Lh())
      ensures cache.bufs[b].refcnt == old(cache.bufs[b].refcnt)
      ensures cache.bufs[..] == old(cache.bufs[..])[b := cache.bufs[b]]
      ensures ok ==> Lh() == P.Absorb(old(Lh()), cache.bufs[b].blockno)
      ensures ok ==> cache.view == old(cache.view)[cache.bufs[b].blockno := data]
    {
      hide CacheInv, Dated, Listable;
      ok := !(n >= LOGSIZE || n >= l.size - 1 || outstanding < 1);
      if !ok {
        return;
      }
      ghost var lh, was := Lh(), cache.bufs[..];
      Enlist(cache.bufs[b].blockno);
      cache.Pin(b, data);
      PinnedMore(was, cache.bufs[..], b, lh, Lh());
    }

    /** The absorption loop of log_write. */
    method Enlist(bno: Uint)
      requires block.Length == LOGSIZE && n < LOGSIZE && n < l.size - 1 && Home(l, bno) && Loggable(l, Lh())
      modifies block, this`n
      ensures n <= LOGSIZE && Lh() == P.Absorb(old(Lh()), bno) && Loggable(l, Lh())
    {
      var i := 0;
      while i < n && block[i] != bno
        invariant 0 <= i <= n
        invariant forall k :: 0 <= k < i ==> block[k] != bno
      {
        i := i + 1;
      }
      block[i] := bno;
      if i == n {
        n := n + 1;
        assert Lh() == old(Lh()) + [bno];
      } else {
        assert Lh() == old(Lh());
      }
    }

    lemma PinnedMore(was: seq<Buf>, now: seq<Buf>, b: nat, lh: seq<nat>, lh': seq<nat>)
      requires b < |was| == |now| && now == was[b := now[b]] && Pinned(was, lh)
      requires now[b].dirty && now[b].blockno == was[b].blockno && lh' == P.Absorb(lh, now[b].blockno)
      ensures Pinned(now, lh')
    {
      forall x | x in lh' ensures HasDirty(now, x) {
        if x == now[b].blockno {
          assert now[b].dirty;
        } else {
          assert HasDirty(was, x);
          var i :| 0 <= i < |was| && was[i].dirty && was[i].blockno == x;
          assert now[i].dirty && now[i].blockno == x;
        }
      }
    }

    /** bread, change, log_write, brelse: the map changes at bno, the disk not at all. */
    method UpdateBlock(bno: nat, data: Block, ghost held: map<int, Buf>) returns (ok: bool)
      requires Valid(held) && Home(l, bno) && Apart(held, bno)
      modifies cache.bufs, cache`view, cache`order, cache`stamp, cache`clock, cache.next, cache.prev, block, this`n
      ensures old(n >= LOGSIZE || n >= l.size - 1 || outstanding < 1) ==> !ok
      ensures old(Quiet(held, {}) && (bno in Lh() || n + |held| < NBUF) && n < LOGSIZE && n < l.size - 1 && outstanding >= 1)
              ==> ok && Quiet(held, {})
      ensures ok ==> Valid(held) && cache.view == old(cache.view)[bno := data]
      ensures ok ==> Lh() == P.Absorb(old(Lh()), bno) && cache.view[l.start] == old(cache.view[l.start])
    {
      hide CacheInv, Pinned, Dated, P.Absorb;
      var b := Open(bno, Lh(), held, {});
      ok := b != -1;
      if ok {
        assert {} + {b} == {b} && {b} - {b} == {};
        ghost var was := cache.bufs[..];
        ok := LogWrite(b, data, held);
        if ok {
          StillQuiet(was, cache.bufs[..], b, held);
          Close(b, Lh(), held, {b});
        }
      }
    }

    lemma StillQuiet(was: seq<Buf>, now: seq<Buf>, b: nat, held: map<int, Buf>)
      requires b < |was| == |now| && now == was[b := now[b]] && now[b].refcnt == was[b].refcnt
      ensures OnlyHeld(was, held, {b}) ==> OnlyHeld(now, held, {b})
    {
    }

    lemma PinnedLess(was: seq<Buf>, now: seq<Buf>, b: nat, pins: seq<nat>)
      requires b < |was| == |now| && now == was[b := now[b]] && Pinned(was, pins) && Unique(was)
      requires !now[b].dirty && was[b].dev == ROOTDEV && now[b].blockno == was[b].blockno
      requires forall i :: 0 <= i < |was| && was[i].dirty ==> was[i].dev == ROOTDEV
      ensures Pinned(now, Without(pins, was[b].blockno))
    {
      var rest := Without(pins, was[b].blockno);
      forall i | 0 <= i < |now| && now[i].dirty ensures now[i].blockno in rest {
        assert i != b && was[i].dirty;
        assert now[i].blockno != was[b].blockno;
      }
      forall x | x in rest ensures HasDirty(now, x) {
        assert HasDirty(was, x);
        var i :| 0 <= i < |was| && was[i].dirty && was[i].blockno == x;
        assert now[i].dirty && now[i].blockno == x;
      }
    }

    /** bwrite of a held buffer. */
    method Put(b: nat, data: Block, ghost pins: seq<nat>, ghost held: map<int, Buf>, ghost mine: set<int>)
      requires Busy(pins, held, mine) && b in mine && b < NBUF && cache.bufs[b].valid
      modifies cache.bufs, cache`view, cache.disk
      ensures Busy(Without(pins, cache.bufs[b].blockno), held, mine)
      ensures cache.bufs[..] == old(cache.bufs[..])[b := cache.bufs[b]]
      ensures cache.bufs[b].blockno == old(cache.bufs[b].blockno) < l.blocks
      ensures old(Quiet(held, mine)) ==> Quiet(held, mine)
      ensures cache.view == old(cache.view)[cache.bufs[b].blockno := data]
      ensures cache.disk.blocks == old(cache.disk.blocks)[cache.bufs[b].blockno := data]
      ensures cache.disk.writes == old(cache.disk.writes) + [(cache.bufs[b].blockno, data)]
    {
      ghost var was := cache.bufs[..];
      cache.Bwrite(b, data);
      PinnedLess(was, cache.bufs[..], b, pins);
      assert forall i :: 0 <= i < NBUF && i != b ==> cache.bufs[..][i] == was[i];
    }

    /** The two breads at the head of write_log's and install_trans's loop bodies. */
    method OpenPair(slot: nat, home: nat, ghost pins: seq<nat>, ghost held: map<int, Buf>) returns (s: int, h: int)
      requires Busy(pins, held, {}) && slot < l.blocks && home < l.blocks && slot != home
      requires Apart(held, slot) && Apart(held, home)
      modifies cache.bufs
      ensures s == -1 || h == -1 || (0 <= s < NBUF && 0 <= h < NBUF && s != h)
      ensures old(Quiet(held, {}) && |pins| + |held| < NBUF && (home in pins || |pins| + |held| + 1 < NBUF)) ==>
                s != -1 && h != -1 && Quiet(held, {s, h})
      ensures s != -1 && h != -1 ==> Busy(pins, held, {s, h})
      ensures s != -1 && h != -1 ==> cache.bufs[s].blockno == slot && cache.bufs[s].valid && cache.bufs[s].data == cache.view[slot]
      ensures s != -1 && h != -1 ==> cache.bufs[h].blockno == home && cache.bufs[h].valid && cache.bufs[h].data == cache.view[home]
    {
      hide CacheInv, Dated, Pinned, LockedAre, OnlyHeld, Apart;
      h := -1;
      s := Open(slot, pins, held, {});
      if s != -1 {
        assert {} + {s} == {s};
        h := Open(home, pins, held, {s});
        assert {s} + {h} == {s, h};
      }
    }

    method ClosePair(s: nat, h: nat, ghost pins: seq<nat>, ghost held: map<int, Buf>)
      requires s < NBUF && h < NBUF && s != h && Busy(pins, held, {s, h})
      modifies cache.bufs, cache`order, cache`stamp, cache`clock, cache.next, cache.prev
      ensures Busy(pins, held, {})
      ensures old(Quiet(held, {s, h})) ==> Quiet(held, {})
    {
      Close(h, pins, held, {s, h});
      assert {s, h} - {h} == {s};
      Close(s, pins, held, {s});
      assert {s} - {s} == {};
    }

    /** Body of write_log's loop: home block to log slot. */
    method CopyToSlot(slot: nat, home: nat, ghost pins: seq<nat>, ghost held: map<int, Buf>) returns (ok: bool)
      requires Busy(pins, held, {}) && l.start < slot < l.start + l.size && Home(l, home)
      requires Apart(held, slot) && Apart(held, home)
      modifies Repr() - {this, block}
      ensures old(Quiet(held, {}) && |pins| + |held| < NBUF && home in pins) ==> ok && Quiet(held, {})
      ensures ok ==> Busy(Without(pins, slot), held, {})
      ensures ok ==> cache.view == old(cache.view[slot := cache.view[home]])
      ensures ok ==> cache.disk.writes == old(cache.disk.writes + [(slot, cache.view[home])])
      ensures !ok ==> cache.disk.writes == old(cache.disk.writes)
    {
      hide CacheInv, Dated, Pinned, LockedAre, OnlyHeld;
      var s, h := OpenPair(slot, home, pins, held);
      ok := s != -1 && h != -1;
      if ok {
        Put(s, cache.bufs[h].data, pins, held, {s, h});
        ClosePair(s, h, Without(pins, slot), held);
      }
    }

    /** Body of install_trans's loop: log slot to home block. */
    method CopyHome(slot: nat, home: nat, ghost pins: seq<nat>, ghost held: map<int, Buf>) returns (ok: bool)
      requires Busy(pins, held, {}) && l.start < slot < l.start + l.size && Home(l, home)
      requires Apart(held, slot) && Apart(held, home)
      modifies Repr() - {this, block}
      ensures old(Quiet(held, {}) && |pins| + |held| < NBUF && (home in pins || |pins| + |held| + 1 < NBUF)) ==> ok && Quiet(held, {})
      ensures ok ==> Busy(Without(pins, home), held, {})
      ensures ok ==> cache.view == old(cache.view[home := cache.view[slot]])
      ensures ok ==> cache.disk.writes == old(cache.disk.writes + [(home, cache.view[slot])])
      ensures !ok ==> cache.disk.writes == old(cache.disk.writes)
    {
      hide CacheInv, Dated, Pinned, LockedAre, OnlyHeld;
      var s, h := OpenPair(slot, home, pins, held);
      ok := s != -1 && h != -1;
      if ok {
        Put(h, cache.bufs[s].data, pins, held, {s, h});
        ClosePair(s, h, Without(pins, home), held);
      }
    }

    /** write_head; `hb` is the block it stores. */
    method WriteHead(ghost pins: seq<nat>, ghost held: map<int, Buf>) returns (ok: bool, hb: Block)
      requires Busy(pins, held, {}) && Apart(held, l.start)
      modifies Repr() - {this, block}
      ensures old(Quiet(held, {}) && |pins| + |held| < NBUF) ==> ok && Quiet(held, {})
      ensures ok ==> Busy(Without(pins, l.start), held, {}) && Listed(hb) == Lh() && Readable(hb)
      ensures ok ==> cache.view == old(cache.view)[l.start := hb]
      ensures ok ==> cache.disk.writes == old(cache.disk.writes) + [(l.start, hb)]
      ensures !ok ==> cache.disk.writes == old(cache.disk.writes)
    {
      hide CacheInv, Dated, Pinned, LockedAre, OnlyHeld, Listed, Readable, Listable, Without, ZeroBlock;
      hb := ZeroBlock();
      var b := Open(l.start, pins, held, {});
      ok := b != -1;
      if ok {
        assert {} + {b} == {b};
        hb := FillHeader(cache.bufs[b].data);
        assert Busy(pins, held, {b});
        Store(b, hb, pins, held);
      }
    }

    /** bwrite and brelse of the one held buffer. */
    method Store(b: nat, data: Block, ghost pins: seq<nat>, ghost held: map<int, Buf>)
      requires b < NBUF && Busy(pins, held, {b}) && cache.bufs[b].valid
      modifies Repr() - {this, block}
      ensures old(cache.bufs[b].blockno) < l.blocks
      ensures Busy(old(Without(pins, cache.bufs[b].blockno)), held, {})
      ensures old(Quiet(held, {b})) ==> Quiet(held, {})
      ensures cache.view == old(cache.view[cache.bufs[b].blockno := data])
      ensures cache.disk.writes == old(cache.disk.writes + [(cache.bufs[b].blockno, data)])
    {
      Put(b, data, pins, held, {b});
      Close(b, Without(pins, cache.bufs[b].blockno), held, {b});
      assert {b} - {b} == {};
    }

    /** The header block write_head builds over the old one. */
    method FillHeader(was: Block) returns (hb: Block)
      requires block.Length == LOGSIZE && n <= LOGSIZE
      ensures Listed(hb) == Lh() && Readable(hb)
    {
      hb := PutWord(was, 0, n);
      var i := 0;
      while i < n
        invariant 0 <= i <= n && Word(hb, 0) == n
        invariant forall k :: 0 <= k < i ==> Word(hb, k + 1) == block[k]
      {
        hb := PutWord(hb, i + 1, block[i]);
        i := i + 1;
      }
      ListedIs(hb, Lh());
    }

    /** The loop of read_head. */
    method LoadHeader(hb: Block)
      requires block.Length == LOGSIZE && Readable(hb)
      modifies block, this`n
      ensures n <= LOGSIZE && Lh() == Listed(hb)
    {
      n := Word(hb, 0);
      var i := 0;
      while i < n
        invariant 0 <= i <= n == Word(hb, 0) && block[..i] == Entries(hb, i)
      {
        block[i] := Word(hb, i + 1);
        i := i + 1;
      }
    }

    /** One iteration of write_log, issuing write `w`. */
    method SlotAt(tail: nat, ghost w: Written, ghost lh: seq<nat>, ghost held: map<int, Buf>) returns (ok: bool)
      requires Busy(lh, held, {}) && Clear(held, l, lh) && Loggable(l, lh) && tail < n == |lh| && block[tail] == lh[tail]
      requires lh[tail] < |cache.view| && w == (l.start + 1 + tail, cache.view[lh[tail]])
      modifies Repr() - {this, block}
      ensures old(Quiet(held, {}) && n + |held| < NBUF) ==> ok && Quiet(held, {})
      ensures ok ==> Busy(lh, held, {}) && cache.disk.writes == old(cache.disk.writes) + [w]
      ensures ok ==> cache.view == old(cache.view)[w.0 := w.1]
      ensures !ok ==> cache.disk.writes == old(cache.disk.writes)
    {
      hide CacheInv, Dated, Pinned, LockedAre, OnlyHeld, Without, Clear, Apart, Loggable, Fits;
      ApartAt(held, l, lh, tail);
      Ring.WithoutAbsent(lh, l.start + 1 + tail);
      ok := CopyToSlot(l.start + 1 + tail, block[tail], lh, held);
    }

    /** write_log; `ws` are the block writes it issues before it ends or finds no buffer. */
    method WriteLog(ghost held: map<int, Buf>) returns (ok: bool, ghost ws: seq<Written>)
      requires Valid(held) && Clear(held, l, Lh())
      modifies Repr() - {this, block}
      ensures cache.disk.writes == old(cache.disk.writes) + ws && SlotTrace(l, Lh(), old(cache.view), ws)
      ensures old(Quiet(held, {}) && n + |held| < NBUF) ==> ok && Quiet(held, {})
      ensures ok ==> Valid(held) && SlotsDone(l, Lh(), old(cache.view), cache.view, ws, n)
    {
      hide CacheInv, Dated, Pinned, LockedAre, OnlyHeld, Clear, Slotted, SlotTrace, SlotsDone, Loggable, Fits;
      ws := [];
      ghost var lh, was, before := Lh(), cache.view, cache.disk.writes;
      SlotsNone(l, lh, was, before);
      var tail := 0;
      while tail < n
        invariant 0 <= tail <= n && Busy(lh, held, {}) && Lh() == lh
        invariant Slotted(l, lh, was, cache.view, before, cache.disk.writes, ws, tail)
        invariant old(Quiet(held, {}) && n + |held| < NBUF) ==> Quiet(held, {})
      {
        SlotsTrace(l, lh, was, cache.view, before, cache.disk.writes, ws, tail);
        ghost var w: Written := (l.start + 1 + tail, cache.view[lh[tail]]);
        SlotsNext(l, lh, was, cache.view, before, cache.disk.writes, ws, tail, w);
        assert block[tail] == lh[tail];
        ok := SlotAt(tail, w, lh, held);
        if !ok {
          return;
        }
        ws := ws + [w];
        tail := tail + 1;
      }
      SlotsTrace(l, lh, was, cache.view, before, cache.disk.writes, ws, tail);
      ok := true;
    }

    /** One iteration of install_trans, issuing write `w`. */
    method HomeAt(tail: nat, ghost w: Written, ghost lh: seq<nat>, ghost pins: seq<nat>, ghost held: map<int, Buf>)
      returns (ok: bool)
      requires tail < |lh| && (pins == [] || pins == lh)
      requires Busy(Left(pins, lh, tail), held, {}) && Clear(held, l, lh) && Loggable(l, lh) && n == |lh| && block[tail] == lh[tail]
      requires l.start + 1 + tail < |cache.view| && w == (lh[tail], cache.view[l.start + 1 + tail])
      modifies Repr() - {this, block}
      ensures old(Quiet(held, {}) && Spare(pins, held)) ==> ok && Quiet(held, {})
      ensures ok ==> Busy(Left(pins, lh, tail + 1), held, {})
      ensures ok ==> cache.disk.writes == old(cache.disk.writes) + [w]
      ensures ok ==> cache.view == old(cache.view)[w.0 := w.1]
      ensures !ok ==> cache.disk.writes == old(cache.disk.writes)
    {
      hide CacheInv, Dated, Pinned, LockedAre, OnlyHeld, Without, Clear, Apart, Loggable, Fits, Left, Spare;
      ApartAt(held, l, lh, tail);
      NextPin(lh, pins, tail, held);
      ok := CopyHome(l.start + 1 + tail, block[tail], Left(pins, lh, tail), held);
    }

    /** install_trans; `pins` are the listed blocks at commit and none at recovery. */
    method InstallTrans(ghost pins: seq<nat>, ghost held: map<int, Buf>) returns (ok: bool, ghost ws: seq<Written>)
      requires block.Length == LOGSIZE && n <= LOGSIZE && Busy(pins, held, {}) && (pins == Lh() || pins == [])
      requires Loggable(l, Lh()) && Clear(held, l, Lh())
      modifies Repr() - {this, block}
      ensures cache.disk.writes == old(cache.disk.writes) + ws && HomeTrace(l, Lh(), old(cache.view), ws)
      ensures old(Quiet(held, {}) && Spare(pins, held)) ==> ok && Quiet(held, {})
      ensures ok ==> Busy([], held, {}) && |ws| == n && HomesDone(l, Lh(), old(cache.view), cache.view, ws, n)
    {
      hide CacheInv, Dated, Pinned, LockedAre, OnlyHeld, Clear, Left, Spare, Homed, HomesDone, HomeTrace, Loggable, Fits;
      ws := [];
      ghost var lh, was, before := Lh(), cache.view, cache.disk.writes;
      LeftEnds(pins, lh);
      HomesNone(l, lh, was, before);
      var tail := 0;
      while tail < n
        invariant 0 <= tail <= n && Lh() == lh && Busy(Left(pins, lh, tail), held, {})
        invariant Homed(l, lh, was, cache.view, before, cache.disk.writes, ws, tail)
        invariant old(Quiet(held, {}) && Spare(pins, held)) ==> Quiet(held, {})
      {
        HomesTrace(l, lh, was, cache.view, before, cache.disk.writes, ws, tail);
        ghost var w: Written := (lh[tail], cache.view[l.start + 1 + tail]);
        HomesNext(l, lh, was, cache.view, before, cache.disk.writes, ws, tail, w);
        assert block[tail] == lh[tail];
        ok := HomeAt(tail, w, lh, pins, held);
        if !ok {
          return;
        }
        ws := ws + [w];
        tail := tail + 1;
      }
      HomesTrace(l, lh, was, cache.view, before, cache.disk.writes, ws, tail);
      ok := true;
    }

    lemma NextPin(lh: seq<nat>, pins: seq<nat>, tail: nat, held: map<int, Buf>)
      requires tail < |lh| && Distinct(lh) && (pins == [] || pins == lh)
      ensures var left := Left(pins, lh, tail);
              && Without(left, lh[tail]) == Left(pins, lh, tail + 1)
              && (Spare(pins, held) ==> |left| + |held| < NBUF && (lh[tail] in left || |left| + |held| + 1 < NBUF))
    {
      var left := Left(pins, lh, tail);
      if pins != [] {
        assert lh[tail] == left[0];
        Ring.WithoutAt(left, 0);
      }
    }

    lemma LeftEnds(pins: seq<nat>, lh: seq<nat>)
      requires pins == [] || pins == lh
      ensures Left(pins, lh, 0) == pins && Left(pins, lh, |lh|) == []
    {
    }

    /** With nothing pinned the disk is the block map. */
    lemma AllHome(held: map<int, Buf>)
      requires Valid(held) && n == 0
      ensures cache.disk.blocks == cache.view
    {
      forall b | 0 <= b < |cache.view| ensures cache.disk.blocks[b] == cache.view[b] {
        assert forall i :: 0 <= i < |cache.bufs[..]| ==> !cache.bufs[..][i].dirty;
      }
    }

    /** The first half of commit(): write_log and the header that makes it durable. */
    method LogThem(ghost held: map<int, Buf>) returns (ok: bool, ghost w1: seq<Written>, ghost slots: seq<Block>, h1: Block)
      requires Valid(held) && Clear(held, l, Lh())
      modifies Repr() - {this, block}
      ensures cache.disk.writes == old(cache.disk.writes) + w1 + if ok then [(l.start, h1)] else []
      ensures SlotTrace(l, Lh(), old(cache.view), w1)
      ensures old(Quiet(held, {}) && n + |held| < NBUF) ==> ok && Quiet(held, {})
      ensures ok ==> Valid(held) && SlotsDone(l, Lh(), old(cache.view), slots, w1, n)
      ensures ok ==> cache.view == slots[l.start := h1] && Listed(h1) == Lh() && Readable(h1)
    {
      hide CacheInv, Dated, Pinned, LockedAre, OnlyHeld, Clear, Apart, SlotTrace, SlotsDone, Listed;
      h1 := ZeroBlock();
      ok, w1 := WriteLog(held);
      slots := cache.view;
      if ok {
        Ring.WithoutAbsent(Lh(), l.start);
        HeadApart(held, l, Lh());
        ok, h1 := WriteHead(Lh(), held);
      }
    }

    /** The second half: install_trans and the header that erases the transaction. */
    method InstallThem(ghost pins: seq<nat>, ghost held: map<int, Buf>)
      returns (ok: bool, ghost w2: seq<Written>, ghost now: seq<Block>, h2: Block)
      requires block.Length == LOGSIZE && n <= LOGSIZE && Busy(pins, held, {}) && (pins == Lh() || pins == [])
      requires Loggable(l, Lh()) && Clear(held, l, Lh())
      modifies Repr() - {this, block}, this`n
      ensures cache.disk.writes == old(cache.disk.writes) + w2 + if ok then [(l.start, h2)] else []
      ensures HomeTrace(l, old(Lh()), old(cache.view), w2)
      ensures old(Quiet(held, {}) && Spare(pins, held)) ==> ok && Quiet(held, {})
      ensures ok ==> Valid(held) && n == 0 && |w2| == old(n) && HomesDone(l, old(Lh()), old(cache.view), now, w2, old(n))
      ensures ok ==> cache.view == now[l.start := h2] && Listed(h2) == [] && Readable(h2) && Erased(cache.view[l.start])
    {
      hide CacheInv, Dated, Pinned, LockedAre, OnlyHeld, Clear, Apart, HomeTrace, HomesDone, Listed;
      h2 := ZeroBlock();
      HeadApart(held, l, Lh());
      ok, w2 := InstallTrans(pins, held);
      now := cache.view;
      if ok {
        n := 0;
        ok, h2 := WriteHead([], held);
      }
    }

    /** commit(): the block writes it issues, and what it leaves when no buffer shortage stops it. */
    method Commit(ghost held: map<int, Buf>) returns (ok: bool, ghost ws: seq<Written>)
      requires Valid(held) && Clear(held, l, Lh())
      modifies Repr() - {this, block}, this`n
      ensures cache.disk.writes == old(cache.disk.writes) + ws
      ensures CommitWrites(l, old(Lh()), old(cache.view), ws)
      ensures old(Quiet(held, {}) && n + |held| < NBUF) ==> ok && Quiet(held, {})
      ensures ok ==> Valid(held) && n == 0 && |ws| == old(P.CommitLength(n))
      ensures ok && old(n > 0 || Erased(cache.view[l.start])) ==> Erased(cache.view[l.start])
      ensures ok ==> cache.disk.blocks == cache.view
      ensures ok ==> Same(l, cache.view, old(cache.view))
    {
      hide CacheInv, Dated, Pinned, LockedAre, OnlyHeld, Clear, SlotsDone, HomesDone, SlotTrace, HomeTrace, Listed;
      ghost var writes, lh, was := cache.disk.writes, Lh(), cache.view;
      SameSelf(l, was);
      assert forall k :: 0 <= k < |lh| ==> lh[k] < |was|;
      assert n == 0 ==> CommitWrites(l, lh, was, []);
      assert P.CommitLength(n) == if n == 0 then 0 else 2 * n + 2;
      hide *;
      ws := [];
      ok := true;
      if n > 0 {
        ghost var w1, slots, w2, now;
        var h1, h2;
        ok, w1, slots, h1 := LogThem(held);
        if !ok {
          ws := CommitBegun(l, lh, was, w1, writes);
          return;
        }
        ghost var headed := cache.view;
        ok, w2, now, h2 := InstallThem(lh, held);
        ws := CommitSoFar(l, lh, was, slots, headed, w1, h1, w2, if ok then [(l.start, h2)] else [], writes);
        if ok {
          HomeKept(l, lh, was, slots, h1, headed, now, h2, cache.view, w1, w2);
        }
      }
      if ok {
        AllHome(held);
      }
    }

    /** end_op: the last operation out commits; `ok` is false where it panics or commit() stops. */
    method EndOp(ghost held: map<int, Buf>) returns (ok: bool, ghost ws: seq<Written>)
      requires Valid(held) && outstanding >= 1 && (outstanding == 1 ==> Clear(held, l, Lh()))
      modifies Repr() - {this, block}, this`n, this`outstanding, this`committing
      ensures outstanding == old(outstanding) - 1 && cache.disk.writes == old(cache.disk.writes) + ws
      ensures old(committing) ==> !ok
      ensures old(!committing && (outstanding > 1 || (Quiet(held, {}) && n + |held| < NBUF))) ==> ok
      ensures old(committing || outstanding > 1) ==> ws == [] && n == old(n) && cache.view == old(cache.view)
      ensures old(!committing && outstanding == 1) ==> CommitWrites(l, old(Lh()), old(cache.view), ws)
      ensures ok ==> Valid(held) && !committing && (old(outstanding) == 1 ==> |ws| == P.CommitLength(old(n)))
      ensures ok && old(Ready(held)) ==> Ready(held)
      ensures ok && outstanding == 0 ==> n == 0 && cache.disk.blocks == cache.view
      ensures ok ==> Same(l, cache.view, old(cache.view))
    {
      hide CacheInv, Dated, Pinned, LockedAre, OnlyHeld, Clear, CommitWrites, Erased, Listed, Readable, Loggable,
        Same, P.CommitLength, Fits;
      SameSelf(l, cache.view);
      ws := [];
      outstanding := outstanding - 1;
      ok := !committing;
      if ok && outstanding == 0 {
        ok, ws := CommitAlone(held);
      }
    }

    /** commit() with log.committing set around it. */
    method CommitAlone(ghost held: map<int, Buf>) returns (ok: bool, ghost ws: seq<Written>)
      requires Valid(held) && Clear(held, l, Lh())
      modifies Repr() - {this, block}, this`n, this`committing
      ensures !committing && cache.disk.writes == old(cache.disk.writes) + ws
      ensures CommitWrites(l, old(Lh()), old(cache.view), ws)
      ensures old(Quiet(held, {}) && n + |held| < NBUF) ==> ok
      ensures ok ==> Valid(held) && n == 0 && |ws| == old(P.CommitLength(n)) && cache.disk.blocks == cache.view
      ensures ok && old(Ready(held)) ==> Ready(held)
      ensures ok ==> Same(l, cache.view, old(cache.view))
    {
      hide CacheInv, Dated, Pinned, LockedAre, OnlyHeld, Clear, CommitWrites, Erased, Listed, Readable, Loggable,
        Same, P.CommitLength, Fits;
      committing := true;
      ok, ws := Commit(held);
      committing := false;
    }

    /** read_head; `ok` is also false for a count with which it would leave log.lh.block. */
    method ReadHead(ghost held: map<int, Buf>) returns (ok: bool)
      requires Busy([], held, {}) && Apart(held, l.start)
      modifies cache.bufs, cache`order, cache`stamp, cache`clock, cache.next, cache.prev, block, this`n
      ensures !Readable(cache.view[l.start]) ==> !ok
      ensures old(Quiet(held, {}) && |held| < NBUF) && Readable(cache.view[l.start]) ==> ok && Quiet(held, {})
      ensures ok ==> Busy([], held, {}) && Lh() == Listed(cache.view[l.start])
    {
      hide CacheInv, Dated, Pinned, LockedAre, OnlyHeld, Listed, Entries, Word;
      var b := Open(l.start, [], held, {});
      ok := b != -1;
      if ok {
        assert {} + {b} == {b} && {b} - {b} == {};
        ok := Readable(cache.bufs[b].data);
        if ok {
          LoadHeader(cache.bufs[b].data);
          Close(b, [], held, {b});
        }
      }
    }

    /** recover_from_log() on a cache that holds nothing unwritten. */
    method Recover(ghost held: map<int, Buf>) returns (ok: bool, ghost ws: seq<Written>)
      requires Busy([], held, {}) && Loggable(l, Listed(cache.view[l.start]))
      requires Clear(held, l, Listed(cache.view[l.start]))
      modifies Repr() - {this}, this`n
      ensures cache.disk.writes == old(cache.disk.writes) + ws
      ensures RecoverWrites(l, old(Listed(cache.view[l.start])), old(cache.view), ws)
      ensures old(!Readable(cache.view[l.start])) ==> !ok && ws == []
      ensures old(Quiet(held, {}) && |held| + 1 < NBUF && Readable(cache.view[l.start])) ==> ok && Quiet(held, {})
      ensures ok ==> Valid(held) && n == 0 && |ws| == old(|Listed(cache.view[l.start])|) + 1
      ensures ok ==> Ready(held) && cache.disk.blocks == cache.view
    {
      hide CacheInv, Dated, Pinned, LockedAre, OnlyHeld, Clear, Apart, RecoverWrites, HomesDone, HomeTrace, Listed, Readable, Erased, Listable;
      ghost var writes, lh, was := cache.disk.writes, Listed(cache.view[l.start]), cache.view;
      ws := [];
      RecoverNothing(l, lh, was);
      HeadApart(held, l, lh);
      ok := ReadHead(held);
      if ok {
        ghost var w1, now;
        var h;
        ok, w1, now, h := InstallThem([], held);
        ws := RecoverSoFar(l, lh, was, w1, if ok then [(l.start, h)] else [], writes);
      }
      if ok {
        AllHome(held);
      }
    }
  }

  /** Buffers enough for the two breads of an install: the home block is pinned, or needs one too. */
  ghost predicate Spare(pins: seq<nat>, held: map<int, Buf>) {
    if pins == [] then |held| + 1 < NBUF else |pins| + |held| < NBUF
  }

  /** What is still pinned when install_trans has copied the first `tail` blocks. */
  ghost function Left(pins: seq<nat>, lh: seq<nat>, tail: nat): seq<nat>
    requires tail <= |lh|
  {
    if pins == [] then [] else lh[tail..]
  }

  lemma ApartAt(held: map<int, Buf>, l: Layout, lh: seq<nat>, tail: nat)
    requires Clear(held, l, lh) && tail < |lh| && Loggable(l, lh) && Fits(l)
    ensures Apart(held, l.start + 1 + tail) && Apart(held, lh[tail])
    ensures lh[tail] in lh && Home(l, lh[tail]) && l.start + 1 + tail !in lh && Distinct(lh) && tail + 1 < l.size && l.start + l.size <= l.blocks
  {
  }

  lemma HeadApart(held: map<int, Buf>, l: Layout, lh: seq<nat>)
    requires Clear(held, l, lh) && Fits(l)
    ensures Apart(held, l.start) && Clear(held, l, [])
  {
  }

  lemma RecoverNothing(l: Layout, lh: seq<nat>, was: seq<Block>)
    ensures RecoverWrites(l, lh, was, [])
  {
  }

  lemma RecoverSoFar(l: Layout, lh: seq<nat>, was: seq<Block>, w1: seq<Written>, last: seq<Written>, writes: seq<Written>)
    returns (ws: seq<Written>)
    requires HomeTrace(l, lh, was, w1)
    requires last == [] || (|w1| == |lh| && |last| == 1 && WritesList(l, [], last[0]))
    ensures RecoverWrites(l, lh, was, ws) && |ws| == |w1| + |last|
    ensures writes + w1 + last == writes + ws
  {
    ws := w1 + last;
    forall k | 0 <= k < |lh| && k < |ws| ensures HomeWrite(l, lh, was, ws[k], k) {
      assert ws[k] == w1[k];
    }
    assert last != [] ==> ws[|lh|] == last[0];
    assert writes + w1 + last == writes + (w1 + last);
  }

  lemma CommitBegun(l: Layout, lh: seq<nat>, was: seq<Block>, w1: seq<Written>, writes: seq<Written>)
    returns (ws: seq<Written>)
    requires SlotTrace(l, lh, was, w1) && forall k :: 0 <= k < |lh| ==> lh[k] < |was|
    ensures CommitWrites(l, lh, was, ws)
    ensures writes + w1 + [] == writes + ws
  {
    ws := w1;
  }

  /** What install_trans copies home is what the transaction wrote. */
  lemma HomeFromSlots(l: Layout, lh: seq<nat>, was: seq<Block>, slots: seq<Block>, h1: Block, headed: seq<Block>,
                      w1: seq<Written>, w2: seq<Written>, k: nat)
    requires SlotsDone(l, lh, was, slots, w1, |lh|) && headed == slots[l.start := h1] && HomeTrace(l, lh, headed, w2) && k < |w2|
    ensures lh[k] < |was| && w2[k] == (lh[k], was[lh[k]])
  {
    assert HomeWrite(l, lh, headed, w2[k], k);
    assert slots[l.start + 1 + k] == was[lh[k]];
  }

  function Joined(w1: seq<Written>, h: Written, w2: seq<Written>, last: seq<Written>): (ws: seq<Written>)
    requires |last| <= 1
    ensures |ws| == |w1| + 1 + |w2| + |last|
    ensures forall k :: 0 <= k < |w1| ==> ws[k] == w1[k]
    ensures ws[|w1|] == h
    ensures forall k :: 0 <= k < |w2| ==> ws[|w1| + 1 + k] == w2[k]
    ensures last != [] ==> ws[|w1| + 1 + |w2|] == last[0]
  {
    w1 + [h] + w2 + last
  }

  /** The writes of the stages of commit() fit together. */
  lemma CommitSoFar(l: Layout, lh: seq<nat>, was: seq<Block>, slots: seq<Block>, headed: seq<Block>,
                    w1: seq<Written>, h1: Block, w2: seq<Written>, last: seq<Written>, writes: seq<Written>)
    returns (ws: seq<Written>)
    requires lh != [] && SlotsDone(l, lh, was, slots, w1, |lh|) && Listed(h1) == lh && Readable(h1)
    requires headed == slots[l.start := h1] && HomeTrace(l, lh, headed, w2)
    requires last == [] || (|w2| == |lh| && |last| == 1 && WritesList(l, [], last[0]))
    ensures CommitWrites(l, lh, was, ws) && |ws| == |lh| + 1 + |w2| + |last|
    ensures writes + w1 + [(l.start, h1)] + w2 + last == writes + ws
  {
    var h := (l.start, h1);
    ws := Joined(w1, h, w2, last);
    Flatten(writes, w1, h, w2, last);
    hide Joined;
    assert WritesList(l, lh, h) && |w1| == |lh| && |w2| <= |lh|;
    assert forall k :: 0 <= k < |lh| ==> lh[k] < |was| && w1[k] == (l.start + 1 + k, was[lh[k]]);
    forall k | 0 <= k < |w2| ensures w2[k] == (lh[k], was[lh[k]]) {
      HomeFromSlots(l, lh, was, slots, h1, headed, w1, w2, k);
    }
    hide SlotsDone, HomeTrace, WritesList, Listed;
    CommitJoined(l, lh, was, w1, h, w2, last, ws);
  }

  lemma Flatten(writes: seq<Written>, w1: seq<Written>, h: Written, w2: seq<Written>, last: seq<Written>)
    requires |last| <= 1
    ensures writes + w1 + [h] + w2 + last == writes + Joined(w1, h, w2, last)
  {
  }

  lemma CommitJoined(l: Layout, lh: seq<nat>, was: seq<Block>, w1: seq<Written>, h: Written, w2: seq<Written>, last: seq<Written>, ws: seq<Written>)
    requires lh != [] && |w1| == |lh| && |w2| <= |lh| && |last| <= 1 && (last != [] ==> |w2| == |lh|) && ws == Joined(w1, h, w2, last)
    requires forall k :: 0 <= k < |lh| ==> lh[k] < |was| && w1[k] == (l.start + 1 + k, was[lh[k]])
    requires forall k :: 0 <= k < |w2| ==> w2[k] == (lh[k], was[lh[k]])
    requires WritesList(l, lh, h) && (last != [] ==> WritesList(l, [], last[0]))
    ensures CommitWrites(l, lh, was, ws)
  {
    hide Joined, WritesList;
    forall k | 0 <= k < |lh| && |lh| + 1 + k < |ws| ensures ws[|lh| + 1 + k] == (lh[k], was[lh[k]]) {
      assert k < |w2|;
    }
  }

  /** Installing what was logged changes nothing anyone could see. */
  lemma HomeKept(l: Layout, lh: seq<nat>, was: seq<Block>, slots: seq<Block>, h1: Block, headed: seq<Block>, now: seq<Block>,
                 h2: Block, final: seq<Block>, w1: seq<Written>, w2: seq<Written>)
    requires SlotsDone(l, lh, was, slots, w1, |lh|) && headed == slots[l.start := h1]
    requires HomesDone(l, lh, headed, now, w2, |lh|) && final == now[l.start := h2]
    ensures Same(l, final, was)
  {
    forall b: nat | Home(l, b) ensures now[b] == was[b] {
      if b in lh {
        var k :| 0 <= k < |lh| && lh[k] == b;
        assert now[lh[k]] == headed[l.start + 1 + k];
      }
    }
  }
}
