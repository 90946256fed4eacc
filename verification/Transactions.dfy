/** log.c over the buffer cache as its callers see it.  Every call is a step, or a run of steps, of
    the log protocol, so what is proved of all runs of the protocol holds of the code: readers see
    every log_write, and a boot after a crash finds the effect of whole operations. */
module Transactions {
  import opened Blocks
  import opened LogFormat
  import opened LogHeader
  import opened LogProtocol
  import opened LogProofs
  import Ring = BufferRing
  import opened Bio
  import opened RedoLog
  import opened LogRefinement

  /** The fields of `struct log`, the block map of the cache and the disk are those of the protocol
      state, between two calls. */
  ghost predicate Mirrors(l: Layout, s: State, lh: seq<nat>, view: seq<Block>, disk: seq<Block>, outstanding: nat) {
    && s.phase.Running? && s.checked == {} && s.lh == lh && s.outstanding == outstanding
    && s.disk.blocks == disk && Decoded(l, s.disk) && Same(l, s.view, view)
  }

  /** `s` is reached from a boot that recovered the home blocks to `base`. */
  ghost predicate Run(l: Layout, base: seq<Block>, boot: State, trace: seq<Step>, s: State) {
    Init(l, base, boot) && Reaches(l, boot, trace, s) && Inv(l, base, s)
  }

  lemma RunStep(l: Layout, base: seq<Block>, boot: State, trace: seq<Step>, s: State, step: Step)
    requires Run(l, base, boot, trace, s) && Shape(l, s) && Enabled(l, s, step) && Appends(l, s, step)
    ensures Run(l, base, boot, trace + [step], Next(l, s, step))
  {
    StepInv(l, base, s, step);
    ReachesOne(l, s, step);
    ReachesThen(l, boot, trace, s, [step], Next(l, s, step));
  }

  lemma Began(l: Layout, base: seq<Block>, boot: State, trace: seq<Step>, s: State, op: nat,
              lh: seq<nat>, view: seq<Block>, disk: seq<Block>, n: nat)
    requires Run(l, base, boot, trace, s) && Mirrors(l, s, lh, view, disk, n) && op !in s.used && MayBegin(s)
    ensures Shape(l, s) && Enabled(l, s, BeginOp(op))
    ensures Run(l, base, boot, trace + [BeginOp(op)], Next(l, s, BeginOp(op)))
    ensures Mirrors(l, Next(l, s, BeginOp(op)), lh, view, disk, n + 1)
  {
    hide Durable, Shows, Whole, Events, PhaseInv, Decoded, Same;
    RunStep(l, base, boot, trace, s, BeginOp(op));
  }

  ghost function Logged(l: Layout, s: State, op: nat, bno: nat, data: Block): State {
    s.(lh := Absorb(s.lh, bno), view := if bno < |s.view| then s.view[bno := data] else s.view,
       active := if op in s.active then s.active[op := s.active[op] + if bno in s.lh then 0 else 1] else s.active,
       hist := s.hist + [Event(op, bno, data)])
  }

  /** A log_write with nothing in between its test and its append. */
  lemma Wrote(l: Layout, base: seq<Block>, boot: State, trace: seq<Step>, s: State, op: nat, bno: nat, data: Block,
              lh: seq<nat>, view: seq<Block>, disk: seq<Block>, n: nat)
    requires Run(l, base, boot, trace, s) && Mirrors(l, s, lh, view, disk, n)
    requires op in s.active && Home(l, bno) && !LogWritePanics(l, s)
    ensures Run(l, base, boot, trace + [LogCheck(op)] + [LogAppend(op, bno, data)], Logged(l, s, op, bno, data))
    ensures bno < |view| && Mirrors(l, Logged(l, s, op, bno, data), Absorb(lh, bno), view[bno := data], disk, n)
  {
    hide Durable, Shows, Whole, Events, PhaseInv, Decoded;
    RunStep(l, base, boot, trace, s, LogCheck(op));
    var m := Next(l, s, LogCheck(op));
    RunStep(l, base, boot, trace + [LogCheck(op)], m, LogAppend(op, bno, data));
    assert Next(l, m, LogAppend(op, bno, data)) == Logged(l, s, op, bno, data) by {
      assert m.checked - {op} == {};
    }
  }

  lemma OneRuns(l: Layout, base: seq<Block>, boot: State, trace: seq<Step>, s: State, op: nat)
    requires Run(l, base, boot, trace, s) && op in s.active
    ensures s.outstanding >= 1
  {
  }

  /** end_op with others still running. */
  lemma OneOut(l: Layout, base: seq<Block>, boot: State, trace: seq<Step>, s: State, op: nat,
             lh: seq<nat>, view: seq<Block>, disk: seq<Block>, n: nat)
    requires Run(l, base, boot, trace, s) && Mirrors(l, s, lh, view, disk, n) && op in s.active && n > 1
    ensures Shape(l, s) && Enabled(l, s, EndOp(op))
    ensures Run(l, base, boot, trace + [EndOp(op)], Next(l, s, EndOp(op)))
    ensures Mirrors(l, Next(l, s, EndOp(op)), lh, view, disk, n - 1)
  {
    hide Durable, Shows, Whole, Events, PhaseInv, Decoded, Same;
    RunStep(l, base, boot, trace, s, EndOp(op));
  }

  /** end_op of the last operation, up to the first write of commit(). */
  lemma LastOut(l: Layout, base: seq<Block>, s: State, op: nat, lh: seq<nat>, view: seq<Block>, disk: seq<Block>)
    returns (m: State)
    requires Inv(l, base, s) && Mirrors(l, s, lh, view, disk, 1) && op in s.active
    ensures Shape(l, s) && Enabled(l, s, EndOp(op)) && m == Next(l, s, EndOp(op)) && Inv(l, base, m)
    ensures m.phase == Committing(0) && m.lh == lh && m.disk == s.disk && m.view == s.view
    ensures m.hist == s.hist && m.stable == s.stable && m.used == s.used
  {
    hide Durable, Shows, Whole, Events, PhaseInv, Decoded, Same;
    StepInv(l, base, s, EndOp(op));
    m := Next(l, s, EndOp(op));
  }

  /** With the list empty and the log running, everything is durable. */
  lemma AllDurable(l: Layout, base: seq<Block>, s: State)
    requires Inv(l, base, s) && s.phase.Running? && s.lh == []
    ensures s.stable == |s.hist| && forall b: nat :: Home(l, b) ==> s.disk.blocks[b] == Fold(base, s.hist)[b]
  {
    var next := if s.stable < |s.hist| then s.hist[s.stable].bno else 0;
    assert s.stable < |s.hist| ==> next in s.lh;
  }

  /** All writes of commit(), as a run of the protocol. */
  lemma WholeCommit(l: Layout, base: seq<Block>, m: State, view: seq<Block>, ws: seq<Written>) returns (c: State)
    requires Inv(l, base, m) && m.phase == Committing(0) && Decoded(l, m.disk) && Same(l, m.view, view)
    requires CommitWrites(l, m.lh, view, ws)
    ensures Within(ws, l.blocks) && |m.disk.blocks| == l.blocks
    ensures Reaches(l, m, CommitSteps(l, ws), c) && Inv(l, base, c) && c.phase == Committing(|ws|)
    ensures c.disk.blocks == ApplyAll(m.disk.blocks, ws) && Decoded(l, c.disk) && Same(l, c.view, view)
    ensures c.hist == m.hist && c.lh == m.lh && c.used == m.used
    ensures c.stable == if |ws| <= |m.lh| then m.stable else |m.hist|
  {
    InvShape(l, base, m);
    if m.lh == [] {
      c := m;
    } else {
      hide Inv, Reaches, CommitWrites, CommitRest, Decoded, CommitSteps, CommitOnly, ApplyAll;
      CommitStart(l, base, m, view, ws);
      c := CommitRun(l, base, m, view, ws);
      CommitStepsAre(l, ws);
      CommitProgress(l, base, m, CommitSteps(l, ws), c);
    }
  }

  /** end_op of the last operation, commit() included. */
  lemma Committed(l: Layout, base: seq<Block>, boot: State, trace: seq<Step>, s: State, op: nat,
                  lh: seq<nat>, view: seq<Block>, disk: seq<Block>, ws: seq<Written>, seen: seq<Block>) returns (t: State)
    requires Run(l, base, boot, trace, s) && Mirrors(l, s, lh, view, disk, 1) && op in s.active
    requires CommitWrites(l, lh, view, ws) && |ws| == CommitLength(|lh|) && Same(l, seen, view)
    ensures Within(ws, |disk|)
    ensures Run(l, base, boot, trace + [EndOp(op)] + CommitSteps(l, ws) + [CommitDone], t)
    ensures Mirrors(l, t, [], seen, ApplyAll(disk, ws), 0)
    ensures t.hist == s.hist && t.stable == |s.hist| && t.used == s.used && t.active == map[]
    ensures forall b: nat :: Home(l, b) ==> ApplyAll(disk, ws)[b] == Fold(base, s.hist)[b]
  {
    hide CommitWrites, ApplyAll, CommitSteps, Reaches, Decoded, Durable, Shows, Whole, Events, PhaseInv;
    var m := LastOut(l, base, s, op, lh, view, disk);
    var c := WholeCommit(l, base, m, view, ws);
    StepInv(l, base, c, CommitDone);
    t := Next(l, c, CommitDone);
    AllDurable(l, base, t);
    ReachesOne(l, s, EndOp(op));
    ReachesThen(l, boot, trace, s, [EndOp(op)], m);
    ReachesThen(l, boot, trace + [EndOp(op)], m, CommitSteps(l, ws), c);
    ReachesOne(l, c, CommitDone);
    ReachesThen(l, boot, trace + [EndOp(op)] + CommitSteps(l, ws), c, [CommitDone], t);
    NothingRuns(l, base, c);
  }

  lemma NothingRuns(l: Layout, base: seq<Block>, s: State)
    requires Inv(l, base, s) && !s.phase.Running?
    ensures s.active == map[] && s.outstanding == 0 && s.checked == {}
  {
  }

  /** The disk image as the protocol reads it. */
  ghost function Image(l: Layout, d: seq<Block>): Disk
    requires Fits(l) && |d| == l.blocks
  {
    Disk(Listed(d[l.start]), d)
  }

  /** An image that recovery can read. */
  ghost predicate Bootable(l: Layout, d: seq<Block>) {
    Fits(l) && |d| == l.blocks && Readable(d[l.start]) && Loggable(l, Listed(d[l.start]))
  }

  /** Boot: recovery of a disk image, as a run of the protocol. */
  lemma Booted(l: Layout, image: seq<Block>, ws: seq<Written>) returns (base: seq<Block>, boot: State, trace: seq<Step>, s: State)
    requires Bootable(l, image)
    requires RecoverWrites(l, Listed(image[l.start]), image, ws) && |ws| == |Listed(image[l.start])| + 1
    ensures Within(ws, |image|)
    ensures Run(l, base, boot, trace, s) && s.hist == [] && s.used == {}
    ensures Mirrors(l, s, [], ApplyAll(image, ws), ApplyAll(image, ws), 0)
    ensures forall b: nat :: Home(l, b) ==> base[b] == Redo(l, Image(l, image), b)
  {
    var disk := Image(l, image);
    base := seq(l.blocks, b requires 0 <= b < l.blocks => Redo(l, disk, b));
    boot := State(disk, image, disk.header, 0, Recovering(0), map[], {}, {}, [], 0);
    InitInv(l, base, boot);
    assert Init(l, base, boot);
    hide Init, RecoverWrites, ApplyAll, Redo, Reaches, RecoverSteps, Listed, Loggable, Durable, Shows, Whole, Events;
    RecoverStart(l, base, boot, ws);
    var m := RecoverRun(l, base, boot, ws);
    StepInv(l, base, m, RecoverDone);
    s := Next(l, m, RecoverDone);
    ReachesOne(l, m, RecoverDone);
    ReachesThen(l, boot, RecoverSteps(l, ws), m, [RecoverDone], s);
    trace := RecoverSteps(l, ws) + [RecoverDone];
    NothingRuns(l, base, m);
  }

  // ---- crashes ----

  lemma HistoryKept(l: Layout, base: seq<Block>, c: State, steps: seq<Step>, t: State)
    requires Inv(l, base, c) && Reaches(l, c, steps, t) && RecoveryOnly(steps) && (steps == [] || steps[0] == Crash)
    ensures c.stable <= |c.hist| && t.stable <= |t.hist| && t.hist[..t.stable] == c.hist[..c.stable]
  {
    if steps != [] {
      CrashInv(l, base, c);
      RecoveryKeepsHistory(l, base, Next(l, c, Crash), steps[1..], t);
    }
  }

  /** After any number of recoveries cut short, the image boots, to the durable operations. */
  lemma Recovered(l: Layout, base: seq<Block>, c: State, tries: seq<seq<Written>>, d: seq<Block>)
    requires Inv(l, base, c) && Decoded(l, c.disk) && Attempts(l, c.disk.blocks, tries, d)
    ensures Bootable(l, d)
    ensures forall b: nat :: Home(l, b) ==> Redo(l, Image(l, d), b) == Fold(base, c.hist[..c.stable])[b]
  {
    hide Reaches, AttemptSteps, RecoveryOnly, Attempts, PhaseInv, Shows, Whole, Redo, Fold, Listed;
    var t := AttemptsRun(l, base, c, tries, d);
    AttemptStepsAre(l, tries);
    HistoryKept(l, base, c, AttemptSteps(l, tries), t);
    assert t.disk == Image(l, d);
  }

  /** A crash outside commit(): what was durable is what the next boot finds. */
  lemma CrashBetween(l: Layout, base: seq<Block>, s: State, lh: seq<nat>, view: seq<Block>, disk: seq<Block>, n: nat,
                     tries: seq<seq<Written>>, d: seq<Block>)
    requires Inv(l, base, s) && Mirrors(l, s, lh, view, disk, n) && Attempts(l, disk, tries, d)
    ensures Bootable(l, d)
    ensures forall b: nat :: Home(l, b) ==> Redo(l, Image(l, d), b) == Fold(base, s.hist[..s.stable])[b]
  {
    Recovered(l, base, s, tries, d);
  }

  /** `d` is left on the disk by a crash after k of the writes `ws` of commit(), and then by the
      recoveries `tries`, each cut short somewhere. */
  ghost predicate CrashImage(l: Layout, lh: seq<nat>, view: seq<Block>, disk: seq<Block>, ws: seq<Written>, k: nat,
                             tries: seq<seq<Written>>, d: seq<Block>) {
    && Fits(l) && |disk| == l.blocks && CommitWrites(l, lh, view, ws) && k <= |ws| && Within(ws[..k], |disk|)
    && Attempts(l, ApplyAll(disk, ws[..k]), tries, d)
  }

  /** The durable operations if at most n writes of commit() were made, all of them otherwise. */
  ghost function Survivors(l: Layout, base: seq<Block>, s: State, k: nat): (r: seq<Block>)
    requires Inv(l, base, s)
    ensures |r| == l.blocks
  {
    Fold(base, if k <= |s.lh| then s.hist[..s.stable] else s.hist)
  }

  /** A crash inside the commit() of the last end_op, after k of its writes: the next boot finds
      the operations durable before if the header was not yet written, and all of them if it was. */
  lemma CrashInCommit(l: Layout, base: seq<Block>, s: State, op: nat, lh: seq<nat>, view: seq<Block>, disk: seq<Block>,
                      ws: seq<Written>, k: nat, tries: seq<seq<Written>>, d: seq<Block>)
    requires Inv(l, base, s) && Mirrors(l, s, lh, view, disk, 1) && op in s.active
    requires CrashImage(l, lh, view, disk, ws, k, tries, d)
    ensures Bootable(l, d) && Whole(s)
    ensures forall b: nat :: Home(l, b) ==> Redo(l, Image(l, d), b) == Survivors(l, base, s, k)[b]
  {
    hide CommitWrites, ApplyAll, CommitSteps, Reaches, Decoded, Attempts, Durable, Shows, Whole, PhaseInv, Redo, Fold, Image;
    var m := LastOut(l, base, s, op, lh, view, disk);
    CommitPrefix(l, lh, view, ws, k);
    var c := WholeCommit(l, base, m, view, ws[..k]);
    Recovered(l, base, c, tries, d);
    assert s.hist[..|s.hist|] == s.hist;
  }

  lemma DiskAfter(image: seq<Block>, writes: seq<Written>, ws: seq<Written>)
    requires Within(writes + ws, |image|)
    ensures Within(writes, |image|) && Within(ws, |image|) && ApplyAll(image, writes + ws) == ApplyAll(ApplyAll(image, writes), ws)
    ensures ws == [] ==> ApplyAll(image, writes + ws) == ApplyAll(image, writes)
  {
    assert forall i :: 0 <= i < |writes| ==> writes[i] == (writes + ws)[i];
    assert forall i :: 0 <= i < |ws| ==> ws[i] == (writes + ws)[|writes| + i];
    ApplyBoth(image, writes, ws);
  }

  // ---- the code ----

  /** binit and initlog up to recovery. */
  method FreshLog(image: seq<Block>, l: Layout) returns (log: Log)
    requires Fits(l) && |image| == l.blocks
    ensures fresh(log.Repr()) && log.l == l && log.Busy([], map[], {}) && log.Quiet(map[], {})
    ensures log.cache.view == image == log.cache.disk.image && log.cache.disk.writes == []
    ensures log.outstanding == 0 && !log.committing
  {
    hide CacheInv, Dated, Pinned, LockedAre, Fits, Loggable;
    var disk := new MemDisk(image);
    var cache := new BufferCache(disk);
    log := new Log(cache, l);
    assert log.Lh() == [];
  }

  method BootLog(image: seq<Block>, l: Layout) returns (log: Log, ghost ws: seq<Written>)
    requires Bootable(l, image)
    ensures fresh(log.Repr()) && log.l == l && log.Ready(map[]) && log.n == 0
    ensures RecoverWrites(l, Listed(image[l.start]), image, ws) && |ws| == |Listed(image[l.start])| + 1
    ensures Within(ws, |image|) && log.cache.view == log.cache.disk.blocks == ApplyAll(image, ws)
    ensures log.outstanding == 0 && !log.committing
  {
    hide CacheInv, Dated, Pinned, LockedAre, OnlyHeld, Loggable, Listed, Readable, RecoverWrites, ApplyAll, Within;
    log := FreshLog(image, l);
    assert Clear(map[], l, Listed(image[l.start]));
    ghost var ok;
    ok, ws := log.Recover(map[]);
    assert [] + ws == ws;
  }

  class Journal {
    const log: Log
    /** What the disk recovered to at boot, the state recovery began in, and every step since. */
    ghost const base: seq<Block>
    ghost const boot: State
    ghost var s: State
    ghost var trace: seq<Step>

    ghost predicate Valid(held: map<int, Ring.Buf>)
      reads this, log, log.block, log.cache, log.cache.disk, log.cache.bufs, log.cache.next, log.cache.prev
    {
      && log.Ready(held) && !log.committing && Run(log.l, base, boot, trace, s)
      && Mirrors(log.l, s, log.Lh(), log.cache.view, log.cache.disk.blocks, log.outstanding)
    }

    /** binit, initlog and the recovery it runs, on any image whose header recovery can read. */
    constructor (image: seq<Block>, l: Layout)
      requires Bootable(l, image)
      ensures Valid(map[]) && fresh(log) && fresh(log.Repr()) && log.l == l && s.hist == [] && s.used == {}
      ensures forall b: nat :: Home(l, b) ==> base[b] == Redo(l, Image(l, image), b)
    {
      hide Run, Mirrors, Redo, RecoverWrites, CacheInv, Dated, Pinned, LockedAre, Listed, Listable, Readable, ApplyAll;
      var log0, ws := BootLog(image, l);
      log := log0;
      ghost var base0, boot0, trace0, s0 := Booted(l, image, ws);
      base, boot, trace, s := base0, boot0, trace0, s0;
    }

    /** One pass of begin_op's loop for operation op; false means it sleeps. */
    method BeginOp(ghost op: nat, ghost held: map<int, Ring.Buf>) returns (ok: bool)
      requires Valid(held) && op !in s.used
      modifies log`outstanding, this`s, this`trace
      ensures Valid(held) && ok == old(MayBegin(s))
      ensures ok ==> Shape(log.l, old(s)) && Enabled(log.l, old(s), LogProtocol.BeginOp(op))
      ensures ok ==> s == Next(log.l, old(s), LogProtocol.BeginOp(op)) && trace == old(trace) + [LogProtocol.BeginOp(op)]
      ensures !ok ==> s == old(s) && trace == old(trace)
    {
      hide Run, CacheInv, Dated, Pinned, LockedAre, Listed, Listable, Decoded, Same;
      ok := log.TryBeginOp();
      if ok {
        Began(log.l, base, boot, trace, s, op, log.Lh(), log.cache.view, log.cache.disk.blocks, s.outstanding);
        s, trace := Next(log.l, s, LogProtocol.BeginOp(op)), trace + [LogProtocol.BeginOp(op)];
      }
    }

    /** bread, change, log_write and brelse by operation op: the test and the append of log_write. */
    method Write(ghost op: nat, bno: nat, data: Block, ghost held: map<int, Ring.Buf>) returns (ok: bool)
      requires Valid(held) && op in s.active && Home(log.l, bno) && Apart(held, bno)
      modifies log.cache.bufs, log.cache`view, log.cache`order, log.cache`stamp, log.cache`clock, log.cache.next, log.cache.prev
      modifies log.block, log`n, this`s, this`trace
      ensures old(LogWritePanics(log.l, s)) ==> !ok
      ensures old(log.Quiet(held, {}) && (bno in s.lh || |s.lh| + |held| < Ring.NBUF) && !LogWritePanics(log.l, s)) ==> ok
      ensures ok ==> Valid(held) && s == Logged(log.l, old(s), op, bno, data)
      ensures ok ==> trace == old(trace) + [LogCheck(op)] + [LogAppend(op, bno, data)]
    {
      hide Run, CacheInv, Dated, Pinned, LockedAre, OnlyHeld, Apart, Listed, Listable, Decoded;
      ghost var view, disk, lh := log.cache.view, log.cache.disk.blocks, log.Lh();
      ok := log.UpdateBlock(bno, data, held);
      if ok {
        Wrote(log.l, base, boot, trace, s, op, bno, data, lh, view, disk, log.outstanding);
        s := Logged(log.l, s, op, bno, data);
        trace := trace + [LogCheck(op)] + [LogAppend(op, bno, data)];
      }
    }

    /** bread and brelse: a reader sees every log_write since boot. */
    method Read(bno: nat, ghost held: map<int, Ring.Buf>) returns (ok: bool, data: Block)
      requires Valid(held) && Home(log.l, bno) && Apart(held, bno)
      modifies log.cache.bufs, log.cache`order, log.cache`stamp, log.cache`clock, log.cache.next, log.cache.prev
      ensures Valid(held)
      ensures ok ==> data == Fold(base, s.hist)[bno]
      ensures old(log.Quiet(held, {}) && (bno in s.lh || |s.lh| + |held| < Ring.NBUF)) ==> ok
    {
      hide CacheInv, Dated, Pinned, LockedAre, OnlyHeld, Apart, Listed, Listable, Decoded, Init, Reaches, Durable, Whole;
      ok, data := log.ReadBlock(bno, held);
    }

    /** end_op of operation op, with the commit() it runs when it is the last. */
    method EndOp(ghost op: nat, ghost held: map<int, Ring.Buf>) returns (ok: bool, ghost ws: seq<Written>)
      requires Valid(held) && op in s.active && (s.outstanding == 1 ==> Clear(held, log.l, s.lh))
      modifies log.cache.Repr(), log`n, log`outstanding, log`committing, this`s, this`trace
      ensures old(s.outstanding > 1 || (log.Quiet(held, {}) && |s.lh| + |held| < Ring.NBUF)) ==> ok
      ensures log.cache.disk.writes == old(log.cache.disk.writes) + ws
      ensures old(s.outstanding == 1) ==> CommitWrites(log.l, old(s.lh), old(log.cache.view), ws)
      ensures ok ==> Valid(held) && s.hist == old(s.hist) && s.used == old(s.used)
      ensures ok && old(s.outstanding > 1) ==> trace == old(trace) + [LogProtocol.EndOp(op)] && s.stable == old(s.stable)
      ensures ok && old(s.outstanding == 1) ==>
                && trace == old(trace) + [LogProtocol.EndOp(op)] + CommitSteps(log.l, ws) + [CommitDone]
                && s.lh == [] && s.active == map[] && s.stable == |s.hist|
                && forall b: nat :: Home(log.l, b) ==> log.cache.disk.blocks[b] == Fold(base, s.hist)[b]
    {
      hide Run, CacheInv, Dated, Pinned, LockedAre, OnlyHeld, Clear, Listed, Listable, Decoded, CommitWrites, CommitSteps,
        ApplyAll, Fold, Within;
      OneRuns(log.l, base, boot, trace, s, op);
      ghost var view, disk, lh, writes := log.cache.view, log.cache.disk.blocks, log.Lh(), log.cache.disk.writes;
      ok, ws := log.EndOp(held);
      if ok {
        DiskAfter(log.cache.disk.image, writes, ws);
        if s.outstanding > 1 {
          OneOut(log.l, base, boot, trace, s, op, lh, view, disk, s.outstanding);
          s, trace := Next(log.l, s, LogProtocol.EndOp(op)), trace + [LogProtocol.EndOp(op)];
        } else {
          ghost var t := Committed(log.l, base, boot, trace, s, op, lh, view, disk, ws, log.cache.view);
          s, trace := t, trace + [LogProtocol.EndOp(op)] + CommitSteps(log.l, ws) + [CommitDone];
        }
      }
    }
  }

  /** The machine stops in the commit() of the last end_op after k of the writes `ws` it issues,
      recovers any number of times without finishing, and boots from the image `d` that is left.
      What it then runs on is the effect of the operations durable before commit(), or of all of
      them, as the header was not yet, or was, on disk. */
  method BootAfterCrash(j: Journal, d: seq<Block>, ghost op: nat, ghost held: map<int, Ring.Buf>,
                        ghost ws: seq<Written>, ghost k: nat, ghost tries: seq<seq<Written>>) returns (next: Journal)
    requires j.Valid(held) && j.s.outstanding == 1 && op in j.s.active
    requires CrashImage(j.log.l, j.s.lh, j.log.cache.view, j.log.cache.disk.blocks, ws, k, tries, d)
    ensures fresh(next) && fresh(next.log.Repr()) && next.Valid(map[]) && next.log.l == j.log.l && next.s.hist == []
    ensures Same(j.log.l, next.log.cache.view, Survivors(j.log.l, j.base, j.s, k))
  {
    hide CrashImage, Survivors, Redo, Fold, Image, Decoded, CacheInv, Dated, Pinned, LockedAre, Init, Reaches, Durable;
    CrashInCommit(j.log.l, j.base, j.s, op, j.s.lh, j.log.cache.view, j.log.cache.disk.blocks, ws, k, tries, d);
    ghost var l, after := j.log.l, Survivors(j.log.l, j.base, j.s, k);
    next := new Journal(d, j.log.l);
    AtBoot(l, next.base, next.s, next.log.cache.view, after);
  }

  lemma AtBoot(l: Layout, base: seq<Block>, s: State, view: seq<Block>, after: seq<Block>)
    requires Inv(l, base, s) && s.hist == [] && !s.phase.Recovering? && Same(l, s.view, view)
    requires |after| == l.blocks && forall b: nat :: Home(l, b) ==> base[b] == after[b]
    ensures Same(l, view, after)
  {
  }
}
