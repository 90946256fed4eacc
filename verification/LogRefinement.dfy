/** The block writes log.c issues are runs of the log protocol, so any disk image a crash leaves
    inside commit(), or inside any number of recoveries, recovers to all or nothing. */
module LogRefinement {
  import opened Blocks
  import opened LogFormat
  import opened LogHeader
  import opened LogProtocol
  import opened LogProofs
  import Ring = BufferRing
  import opened RedoLog

  lemma WithinTail(l: Layout, ws: seq<Written>)
    requires ws != [] && ws[0].0 < l.blocks && Within(ws[1..], l.blocks)
    ensures Within(ws, l.blocks)
  {
    assert forall k :: 1 <= k < |ws| ==> ws[k] == ws[1..][k - 1];
  }

  lemma ApplyFirst(l: Layout, d: seq<Block>, ws: seq<Written>)
    requires ws != [] && Within(ws, l.blocks) && |d| == l.blocks
    ensures Within(ws[1..], l.blocks) && ApplyAll(d, ws) == ApplyAll(d[ws[0].0 := ws[0].1], ws[1..])
  {
    assert forall k :: 0 <= k < |ws| - 1 ==> ws[1..][k] == ws[k + 1];
  }

  lemma ApplyNone(d: seq<Block>)
    ensures Within([], |d|) && ApplyAll(d, []) == d
  {
  }

  lemma SameSize(l: Layout, base: seq<Block>, s: State)
    requires Inv(l, base, s)
    ensures l.blocks == |s.disk.blocks|
  {
  }

  function Abstract(l: Layout, w: Written): Write {
    if w.0 == l.start then Head(Listed(w.1), w.1) else Data(w.0, w.1)
  }

  /** The header list the protocol keeps is what the header block encodes. */
  ghost predicate Decoded(l: Layout, d: Disk) {
    l.start < |d.blocks| && d.header == Listed(d.blocks[l.start]) && Readable(d.blocks[l.start])
  }

  lemma AbstractStep(l: Layout, d: Disk, w: Written)
    requires Decoded(l, d) && w.0 < |d.blocks| && (w.0 == l.start ==> Readable(w.1))
    ensures Decoded(l, Apply(l, d, Abstract(l, w)))
    ensures Apply(l, d, Abstract(l, w)).blocks == d.blocks[w.0 := w.1]
  {
  }

  ghost function CommitSteps(l: Layout, ws: seq<Written>): seq<Step> {
    if ws == [] then [] else [CommitWrite(Abstract(l, ws[0]))] + CommitSteps(l, ws[1..])
  }

  lemma {:induction false} CommitStepsAre(l: Layout, ws: seq<Written>)
    ensures CommitOnly(CommitSteps(l, ws)) && |CommitSteps(l, ws)| == |ws|
  {
    if ws != [] {
      CommitStepsAre(l, ws[1..]);
    }
  }

  /** `ws` continues commit() from its pc-th write on. */
  ghost predicate CommitRest(l: Layout, lh: seq<nat>, was: seq<Block>, pc: nat, ws: seq<Written>) {
    var n := |lh|;
    && |was| == l.blocks && Loggable(l, lh) && pc + |ws| <= CommitLength(n)
    && (forall k :: pc <= k < pc + |ws| && k < n ==> ws[k - pc] == (l.start + 1 + k, was[lh[k]]))
    && (pc <= n < pc + |ws| ==> WritesList(l, lh, ws[n - pc]))
    && (forall k :: 0 <= k < n && pc <= n + 1 + k < pc + |ws| ==> ws[n + 1 + k - pc] == (lh[k], was[lh[k]]))
    && (pc <= 2 * n + 1 < pc + |ws| ==> WritesList(l, [], ws[2 * n + 1 - pc]))
  }

  lemma CommitRestTail(l: Layout, lh: seq<nat>, was: seq<Block>, pc: nat, ws: seq<Written>)
    requires CommitRest(l, lh, was, pc, ws) && ws != []
    ensures CommitRest(l, lh, was, pc + 1, ws[1..])
  {
    forall k | pc + 1 <= k < pc + |ws| && k < |lh| ensures ws[1..][k - pc - 1] == (l.start + 1 + k, was[lh[k]]) {
      assert ws[1..][k - pc - 1] == ws[k - pc];
    }
    forall k | 0 <= k < |lh| && pc + 1 <= |lh| + 1 + k < pc + |ws|
      ensures ws[1..][|lh| + 1 + k - pc - 1] == (lh[k], was[lh[k]])
    {
      assert ws[1..][|lh| + 1 + k - pc - 1] == ws[|lh| + 1 + k - pc];
    }
  }

  /** The next write of commit() is the one the protocol expects. */
  lemma CommitNext(l: Layout, base: seq<Block>, s: State, was: seq<Block>, ws: seq<Written>)
    requires Inv(l, base, s) && s.phase.Committing? && s.lh != [] && ws != []
    requires CommitRest(l, s.lh, was, s.phase.pc, ws)
    requires forall b: nat :: Home(l, b) ==> s.view[b] == was[b]
    ensures Enabled(l, s, CommitWrite(Abstract(l, ws[0]))) && ws[0].0 < l.blocks
    ensures ws[0].0 == l.start ==> Readable(ws[0].1)
  {
    hide Durable, Shows, Whole, Redo, Pending, Listed, Readable;
    var n, pc, w := |s.lh|, s.phase.pc, ws[0];
    if pc < n {
      assert w == ws[pc - pc];
    } else if pc == n {
      assert WritesList(l, s.lh, ws[n - pc]);
    } else if pc <= 2 * n {
      var k := pc - n - 1;
      assert w == ws[n + 1 + k - pc] == (s.lh[k], was[s.lh[k]]);
      assert s.disk.blocks[l.start + 1 + k] == s.view[s.lh[k]];
    } else {
      assert WritesList(l, [], ws[2 * n + 1 - pc]);
    }
  }

  lemma CommitStep(l: Layout, base: seq<Block>, s: State, was: seq<Block>, ws: seq<Written>) returns (m: State)
    requires Inv(l, base, s) && s.phase.Committing? && s.lh != [] && ws != [] && Decoded(l, s.disk)
    requires CommitRest(l, s.lh, was, s.phase.pc, ws)
    requires forall b: nat :: Home(l, b) ==> s.view[b] == was[b]
    ensures ws[0].0 < l.blocks == |s.disk.blocks|
    ensures Shape(l, s) && Enabled(l, s, CommitWrite(Abstract(l, ws[0])))
    ensures m == Next(l, s, CommitWrite(Abstract(l, ws[0]))) && Inv(l, base, m)
    ensures m.phase == Committing(s.phase.pc + 1) && m.lh == s.lh && CommitRest(l, m.lh, was, m.phase.pc, ws[1..])
    ensures Decoded(l, m.disk) && m.disk.blocks == s.disk.blocks[ws[0].0 := ws[0].1]
    ensures |m.view| == l.blocks && forall b: nat :: Home(l, b) ==> m.view[b] == was[b]
    ensures m.used == s.used
  {
    hide CommitRest, PhaseInv, Durable, Redo, Listed, Abstract, Decoded;
    CommitNext(l, base, s, was, ws);
    StepInv(l, base, s, CommitWrite(Abstract(l, ws[0])));
    AbstractStep(l, s.disk, ws[0]);
    CommitRestTail(l, s.lh, was, s.phase.pc, ws);
    m := Next(l, s, CommitWrite(Abstract(l, ws[0])));
    assert m.hist == s.hist;
  }

  lemma {:induction false} CommitRun(l: Layout, base: seq<Block>, s: State, was: seq<Block>, ws: seq<Written>)
    returns (t: State)
    requires Inv(l, base, s) && s.phase.Committing? && s.lh != [] && Decoded(l, s.disk)
    requires CommitRest(l, s.lh, was, s.phase.pc, ws)
    requires forall b: nat :: Home(l, b) ==> s.view[b] == was[b]
    ensures Reaches(l, s, CommitSteps(l, ws), t)
    ensures Within(ws, l.blocks) && l.blocks == |s.disk.blocks|
    ensures t.disk.blocks == ApplyAll(s.disk.blocks, ws) && Decoded(l, t.disk)
    ensures |t.view| == l.blocks && forall b: nat :: Home(l, b) ==> t.view[b] == was[b]
    ensures t.used == s.used
    decreases |ws|
  {
    assert l.blocks == |s.disk.blocks|;
    hide Inv, Shape, Enabled, Next, CommitRest, Decoded, Abstract, Home, Fits;
    if ws == [] {
      t := s;
    } else {
      var m := CommitStep(l, base, s, was, ws);
      t := CommitRun(l, base, m, was, ws[1..]);
      assert CommitSteps(l, ws)[1..] == CommitSteps(l, ws[1..]);
      WithinTail(l, ws);
    }
  }

  ghost function RecoverSteps(l: Layout, ws: seq<Written>): seq<Step> {
    if ws == [] then [] else [RecoverWrite(Abstract(l, ws[0]))] + RecoverSteps(l, ws[1..])
  }

  lemma {:induction false} RecoverStepsAre(l: Layout, ws: seq<Written>)
    ensures RecoveryOnly(RecoverSteps(l, ws))
  {
    if ws != [] {
      RecoverStepsAre(l, ws[1..]);
    }
  }

  /** `ws` continues recover_from_log() from its pc-th write on. */
  ghost predicate RecoverRest(l: Layout, lh: seq<nat>, now: seq<Block>, pc: nat, ws: seq<Written>) {
    var n := |lh|;
    && |now| == l.blocks && Loggable(l, lh) && Fits(l) && pc + |ws| <= n + 1
    && (forall k :: pc <= k < pc + |ws| && k < n ==> ws[k - pc] == (lh[k], now[l.start + 1 + k]))
    && (pc <= n < pc + |ws| ==> WritesList(l, [], ws[n - pc]))
  }

  lemma RecoverNext(l: Layout, base: seq<Block>, s: State, ws: seq<Written>)
    requires Inv(l, base, s) && s.phase.Recovering? && ws != []
    requires RecoverRest(l, s.lh, s.disk.blocks, s.phase.pc, ws)
    ensures Enabled(l, s, RecoverWrite(Abstract(l, ws[0]))) && ws[0].0 < l.blocks
    ensures ws[0].0 == l.start ==> Readable(ws[0].1)
    ensures s.phase.pc < |s.lh| ==> Home(l, ws[0].0)
    ensures s.phase.pc == |s.lh| ==> ws[0].0 == l.start
  {
    var n, pc := |s.lh|, s.phase.pc;
    if pc < n {
      assert ws[pc - pc] == (s.lh[pc], s.disk.blocks[l.start + 1 + pc]);
      assert Home(l, s.lh[pc]);
    } else {
      assert WritesList(l, [], ws[n - pc]);
    }
  }

  lemma RecoverRestTail(l: Layout, lh: seq<nat>, now: seq<Block>, pc: nat, ws: seq<Written>)
    requires RecoverRest(l, lh, now, pc, ws) && ws != [] && ws[0].0 < l.blocks
    requires Home(l, ws[0].0) || ws[0].0 == l.start
    ensures RecoverRest(l, lh, now[ws[0].0 := ws[0].1], pc + 1, ws[1..])
  {
    forall k | pc + 1 <= k < pc + |ws| && k < |lh|
      ensures ws[1..][k - pc - 1] == (lh[k], now[ws[0].0 := ws[0].1][l.start + 1 + k])
    {
      assert ws[1..][k - pc - 1] == ws[k - pc];
    }
  }

  lemma RecoverStep(l: Layout, base: seq<Block>, s: State, ws: seq<Written>) returns (m: State)
    requires Inv(l, base, s) && s.phase.Recovering? && ws != [] && Decoded(l, s.disk)
    requires RecoverRest(l, s.lh, s.disk.blocks, s.phase.pc, ws)
    ensures ws[0].0 < l.blocks == |s.disk.blocks|
    ensures Shape(l, s) && Enabled(l, s, RecoverWrite(Abstract(l, ws[0])))
    ensures m == Next(l, s, RecoverWrite(Abstract(l, ws[0]))) && Inv(l, base, m)
    ensures m.phase == Recovering(s.phase.pc + 1) && m.lh == s.lh && m.hist == s.hist && m.used == s.used
    ensures RecoverRest(l, m.lh, m.disk.blocks, m.phase.pc, ws[1..])
    ensures Decoded(l, m.disk) && m.disk.blocks == s.disk.blocks[ws[0].0 := ws[0].1]
  {
    hide RecoverRest, PhaseInv, Durable, Shows, Redo, Listed, Abstract, Decoded;
    RecoverNext(l, base, s, ws);
    StepInv(l, base, s, RecoverWrite(Abstract(l, ws[0])));
    AbstractStep(l, s.disk, ws[0]);
    m := Next(l, s, RecoverWrite(Abstract(l, ws[0])));
    RecoverRestTail(l, s.lh, s.disk.blocks, s.phase.pc, ws);
  }

  lemma {:induction false} RecoverRun(l: Layout, base: seq<Block>, s: State, ws: seq<Written>) returns (t: State)
    requires Inv(l, base, s) && s.phase.Recovering? && Decoded(l, s.disk)
    requires RecoverRest(l, s.lh, s.disk.blocks, s.phase.pc, ws)
    ensures Reaches(l, s, RecoverSteps(l, ws), t)
    ensures Within(ws, l.blocks) && l.blocks == |s.disk.blocks|
    ensures t.disk.blocks == ApplyAll(s.disk.blocks, ws) && Decoded(l, t.disk) && Inv(l, base, t)
    ensures t.phase == Recovering(s.phase.pc + |ws|) && t.lh == s.lh && t.hist == s.hist && t.used == s.used
    decreases |ws|
  {
    hide *;
    SameSize(l, base, s);
    if ws == [] {
      t := s;
      ApplyNone(s.disk.blocks);
      RecoverReaches(l, s, s, ws, t);
    } else {
      var m := RecoverStep(l, base, s, ws);
      t := RecoverRun(l, base, m, ws[1..]);
      WithinTail(l, ws);
      ApplyFirst(l, s.disk.blocks, ws);
      RecoverReaches(l, s, m, ws, t);
    }
  }

  lemma RecoverReaches(l: Layout, s: State, m: State, ws: seq<Written>, t: State)
    requires if ws == [] then s == t else
      && Shape(l, s) && Enabled(l, s, RecoverWrite(Abstract(l, ws[0]))) && m == Next(l, s, RecoverWrite(Abstract(l, ws[0])))
      && Reaches(l, m, RecoverSteps(l, ws[1..]), t)
    ensures Reaches(l, s, RecoverSteps(l, ws), t)
  {
    assert ws != [] ==> RecoverSteps(l, ws)[1..] == RecoverSteps(l, ws[1..]);
  }

  /** Disk image e is what is left of d after these recoveries, each cut short somewhere. */
  ghost predicate Attempts(l: Layout, d: seq<Block>, tries: seq<seq<Written>>, e: seq<Block>)
    requires Fits(l) && |d| == l.blocks
    decreases |tries|
  {
    if tries == [] then d == e
    else
      && RecoverWrites(l, Listed(d[l.start]), d, tries[0]) && Within(tries[0], l.blocks)
      && Attempts(l, ApplyAll(d, tries[0]), tries[1..], e)
  }

  /** A crashed machine starts over from the header on disk. */
  lemma Restart(l: Layout, base: seq<Block>, s: State) returns (r: State)
    requires Inv(l, base, s) && Decoded(l, s.disk)
    ensures Reaches(l, s, [Crash], r)
    ensures Inv(l, base, r) && r.phase == Recovering(0) && r.disk == s.disk && r.lh == Listed(r.disk.blocks[l.start])
  {
    CrashInv(l, base, s);
    ReachesOne(l, s, Crash);
    r := Next(l, s, Crash);
  }

  ghost function AttemptSteps(l: Layout, tries: seq<seq<Written>>): seq<Step> {
    if tries == [] then [] else [Crash] + RecoverSteps(l, tries[0]) + AttemptSteps(l, tries[1..])
  }

  lemma {:induction false} AttemptStepsAre(l: Layout, tries: seq<seq<Written>>)
    ensures RecoveryOnly(AttemptSteps(l, tries))
    ensures if tries == [] then AttemptSteps(l, tries) == [] else AttemptSteps(l, tries) != [] && AttemptSteps(l, tries)[0] == Crash
  {
    if tries != [] {
      RecoverStepsAre(l, tries[0]);
      AttemptStepsAre(l, tries[1..]);
    }
  }

  /** Recoveries that are cut short are a run of the protocol. */
  lemma {:induction false} AttemptsRun(l: Layout, base: seq<Block>, s: State, tries: seq<seq<Written>>, e: seq<Block>)
    returns (t: State)
    requires Inv(l, base, s) && Decoded(l, s.disk) && Attempts(l, s.disk.blocks, tries, e)
    ensures Reaches(l, s, AttemptSteps(l, tries), t)
    ensures Inv(l, base, t) && Decoded(l, t.disk) && t.disk.blocks == e
    decreases |tries|
  {
    InvShape(l, base, s);
    hide Inv, Shape, Enabled, Next, Decoded, RecoverWrites, RecoverSteps, Listed, Fits;
    if tries == [] {
      t := s;
    } else {
      var r, m := Attempt(l, base, s, tries[0]);
      t := AttemptsRun(l, base, m, tries[1..], e);
      ReachesThen(l, s, [Crash], r, RecoverSteps(l, tries[0]), m);
      ReachesThen(l, s, [Crash] + RecoverSteps(l, tries[0]), m, AttemptSteps(l, tries[1..]), t);
    }
  }

  /** One of them. */
  lemma Attempt(l: Layout, base: seq<Block>, s: State, ws: seq<Written>) returns (r: State, m: State)
    requires Inv(l, base, s) && Decoded(l, s.disk) && RecoverWrites(l, Listed(s.disk.blocks[l.start]), s.disk.blocks, ws)
    ensures Reaches(l, s, [Crash], r) && Reaches(l, r, RecoverSteps(l, ws), m)
    ensures Within(ws, l.blocks) && l.blocks == |s.disk.blocks|
    ensures Inv(l, base, m) && Decoded(l, m.disk) && m.disk.blocks == ApplyAll(s.disk.blocks, ws)
    ensures m.phase == Recovering(|ws|) && m.lh == Listed(s.disk.blocks[l.start])
  {
    r := Restart(l, base, s);
    RecoverStart(l, base, r, ws);
    m := RecoverRun(l, base, r, ws);
  }

  lemma RecoverStart(l: Layout, base: seq<Block>, r: State, ws: seq<Written>)
    requires Inv(l, base, r) && r.lh == Listed(r.disk.blocks[l.start]) && RecoverWrites(l, r.lh, r.disk.blocks, ws)
    ensures RecoverRest(l, r.lh, r.disk.blocks, 0, ws)
  {
  }

  lemma CommitStart(l: Layout, base: seq<Block>, s: State, was: seq<Block>, ws: seq<Written>)
    requires Inv(l, base, s) && |was| == l.blocks && CommitWrites(l, s.lh, was, ws)
    ensures CommitRest(l, s.lh, was, 0, ws)
  {
  }

  /** From a protocol state that is about to commit. */
  lemma ProtocolSafety(l: Layout, base: seq<Block>, s: State, ws: seq<Written>,
                       tries: seq<seq<Written>>, d: seq<Block>, last: seq<Written>)
    requires Inv(l, base, s) && s.phase == Committing(0) && s.lh != [] && Decoded(l, s.disk)
    requires CommitWrites(l, s.lh, s.view, ws) && Within(ws, l.blocks)
    requires Attempts(l, ApplyAll(s.disk.blocks, ws), tries, d)
    requires |d| == l.blocks && RecoverWrites(l, Listed(d[l.start]), d, last) && Within(last, l.blocks)
    requires |last| == |Listed(d[l.start])| + 1
    ensures Readable(d[l.start]) && Loggable(l, Listed(d[l.start]))
    ensures var e := ApplyAll(d, last);
            && Erased(e[l.start])
            && forall b: nat :: Home(l, b) ==> e[b] == if |ws| <= |s.lh| then s.disk.blocks[b] else s.view[b]
  {
    hide Inv, CommitWrites, RecoverWrites, CommitRest, Attempts, ApplyAll, CommitSteps, AttemptSteps, RecoverSteps,
      Reaches, CommitOnly, RecoveryOnly, Listed;
    InvShape(l, base, s);
    CommitStart(l, base, s, s.view, ws);
    var c := CommitRun(l, base, s, s.view, ws);
    CommitStepsAre(l, ws);
    CommitProgress(l, base, s, CommitSteps(l, ws), c);
    var steps, t := LastRecovery(l, base, c, tries, d, last);
    CommitAllOrNothing(l, base, s, CommitSteps(l, ws), c, steps, t);
  }

  /** Recoveries cut short, then one that completes. */
  lemma LastRecovery(l: Layout, base: seq<Block>, c: State, tries: seq<seq<Written>>, d: seq<Block>, last: seq<Written>)
    returns (steps: seq<Step>, t: State)
    requires Inv(l, base, c) && Decoded(l, c.disk) && Attempts(l, c.disk.blocks, tries, d)
    requires |d| == l.blocks && RecoverWrites(l, Listed(d[l.start]), d, last) && Within(last, l.blocks)
    requires |last| == |Listed(d[l.start])| + 1
    ensures Reaches(l, c, [Crash] + steps, t) && RecoveryOnly(steps) && t.phase.Running?
    ensures Readable(d[l.start]) && Loggable(l, Listed(d[l.start]))
    ensures t.disk.blocks == ApplyAll(d, last) && Decoded(l, t.disk)
  {
    hide Attempts, ApplyAll, Reaches, RecoverWrites, AttemptSteps, RecoverSteps, Listed, PhaseInv, Durable, Shows, Whole;
    var u := AttemptsRun(l, base, c, tries, d);
    var r, m := Attempt(l, base, u, last);
    t := Next(l, m, RecoverDone);
    ReachesOne(l, m, RecoverDone);
    var a, b := AttemptSteps(l, tries), RecoverSteps(l, last);
    ReachesThen(l, c, a, u, [Crash], r);
    ReachesThen(l, c, a + [Crash], r, b, m);
    ReachesThen(l, c, a + [Crash] + b, m, [RecoverDone], t);
    AttemptStepsAre(l, tries);
    RecoverStepsAre(l, last);
    steps := (a + [Crash] + b + [RecoverDone])[1..];
    assert [Crash] + steps == a + [Crash] + b + [RecoverDone];
  }

  // ---- from log.c's own state ----

  /** One log_write of its final contents for each of the first n listed blocks. */
  ghost function FinalWrites(lh: seq<nat>, view: seq<Block>, n: nat): (es: seq<Event>)
    requires n <= |lh| && forall i :: 0 <= i < |lh| ==> lh[i] < |view|
    ensures |es| == n && forall i :: 0 <= i < n ==> es[i] == Event(0, lh[i], view[lh[i]])
  {
    seq(n, i requires 0 <= i < n => Event(0, lh[i], view[lh[i]]))
  }

  lemma {:induction false} FoldEvents(disk: seq<Block>, lh: seq<nat>, view: seq<Block>, n: nat, b: nat)
    requires n <= |lh| && |disk| == |view| && b < |view| && forall i :: 0 <= i < |lh| ==> lh[i] < |view|
    ensures Fold(disk, FinalWrites(lh, view, n))[b] == if b in lh[..n] then view[b] else disk[b]
  {
    if n > 0 {
      FoldEvents(disk, lh, view, n - 1, b);
      assert FinalWrites(lh, view, n)[..n - 1] == FinalWrites(lh, view, n - 1);
      assert lh[..n] == lh[..n - 1] + [lh[n - 1]];
    }
  }

  /** The cache differs from the disk at listed blocks only. */
  ghost predicate OnlyListed(lh: seq<nat>, view: seq<Block>, disk: seq<Block>) {
    |view| == |disk| && forall b :: 0 <= b < |view| && b !in lh ==> view[b] == disk[b]
  }

  /** List, cache and disk make a protocol state about to commit. */
  lemma AsProtocol(l: Layout, lh: seq<nat>, view: seq<Block>, disk: seq<Block>) returns (s: State)
    requires Fits(l) && Loggable(l, lh) && |view| == l.blocks && OnlyListed(lh, view, disk) && Erased(view[l.start])
    ensures Inv(l, disk, s) && s.phase == Committing(0) && s.lh == lh && s.view == view && s.disk.blocks == disk
    ensures Decoded(l, s.disk)
  {
    var es := FinalWrites(lh, view, |lh|);
    s := State(Disk([], disk), view, lh, 0, Committing(0), map[], {}, {0}, es, 0);
    assert l.start !in lh;
    forall b: nat | Home(l, b) ensures view[b] == Fold(disk, es)[b] {
      FoldEvents(disk, lh, view, |lh|, b);
      assert lh[..|lh|] == lh;
    }
    assert es[..0] == [];
    assert Shows(l, disk, s) && Durable(l, disk, s) && Behind(l, s) && Pending(s);
  }

  /** What a log that is ready to commit says about cache and disk. */
  lemma LogState(log: Log, held: map<int, Ring.Buf>)
    requires log.Ready(held)
    ensures Fits(log.l) && Loggable(log.l, log.Lh()) && |log.cache.view| == log.l.blocks
    ensures OnlyListed(log.Lh(), log.cache.view, log.cache.disk.blocks) && Erased(log.cache.view[log.l.start])
    ensures Within(log.cache.disk.writes, |log.cache.disk.image|) && |log.cache.disk.image| == log.l.blocks
    ensures log.cache.disk.blocks == ApplyAll(log.cache.disk.image, log.cache.disk.writes)
  {
    var view, disk, bufs := log.cache.view, log.cache.disk.blocks, log.cache.bufs[..];
    forall b | 0 <= b < |view| && b !in log.Lh() ensures view[b] == disk[b] {
      assert forall i :: 0 <= i < |bufs| && bufs[i].dirty ==> bufs[i].blockno != b;
    }
  }

  lemma CommitPrefix(l: Layout, lh: seq<nat>, now: seq<Block>, ws: seq<Written>, k: nat)
    requires CommitWrites(l, lh, now, ws) && k <= |ws|
    ensures CommitWrites(l, lh, now, ws[..k])
  {
  }

  lemma StateSafety(l: Layout, lh: seq<nat>, view: seq<Block>, disk: seq<Block>, image: seq<Block>, writes: seq<Written>,
                    ws: seq<Written>, k: nat, tries: seq<seq<Written>>, d: seq<Block>, last: seq<Written>)
    requires Fits(l) && Loggable(l, lh) && |view| == l.blocks && OnlyListed(lh, view, disk) && Erased(view[l.start])
    requires lh != [] && k <= |ws| && CommitWrites(l, lh, view, ws)
    requires Within(writes, |image|) && disk == ApplyAll(image, writes)
    requires Within(writes + ws[..k], |image|) && |image| == l.blocks
    requires Attempts(l, ApplyAll(image, writes + ws[..k]), tries, d)
    requires |d| == l.blocks && RecoverWrites(l, Listed(d[l.start]), d, last) && Within(last, l.blocks)
    requires |last| == |Listed(d[l.start])| + 1
    ensures Readable(d[l.start]) && Loggable(l, Listed(d[l.start]))
    ensures var e := ApplyAll(d, last);
            Erased(e[l.start]) && forall b: nat :: Home(l, b) ==> e[b] == if k <= |lh| then disk[b] else view[b]
  {
    assert Within(ws[..k], l.blocks) by {
      hide CommitWrites, RecoverWrites, Attempts, ApplyAll, Loggable, Erased, Listed;
      assert forall i :: 0 <= i < k ==> ws[..k][i] == (writes + ws[..k])[|writes| + i];
    }
    hide *;
    CommitPrefix(l, lh, view, ws, k);
    ApplyBoth(image, writes, ws[..k]);
    var s := AsProtocol(l, lh, view, disk);
    ProtocolSafety(l, disk, s, ws[..k], tries, d, last);
  }

  /** The code's own guarantee.  `ws` are the block writes commit() issues from this state.  Let the
      machine stop after any k of them, let any number of recoveries be cut short anywhere, and let
      one last recovery `last` complete.  Each recovery finds a header it can read.  In the end every
      home block has its contents from before the transaction if at most n writes of commit() reached
      the disk, every one its contents after it otherwise, and the header lists nothing. */
  lemma CrashSafety(log: Log, held: map<int, Ring.Buf>, ws: seq<Written>, k: nat, tries: seq<seq<Written>>, d: seq<Block>, last: seq<Written>)
    requires log.Ready(held) && log.n > 0 && k <= |ws|
    requires CommitWrites(log.l, log.Lh(), log.cache.view, ws)
    requires Within(log.cache.disk.writes + ws[..k], |log.cache.disk.image|) && |log.cache.disk.image| == log.l.blocks
    requires Attempts(log.l, ApplyAll(log.cache.disk.image, log.cache.disk.writes + ws[..k]), tries, d)
    requires |d| == log.l.blocks && RecoverWrites(log.l, Listed(d[log.l.start]), d, last) && Within(last, log.l.blocks)
    requires |last| == |Listed(d[log.l.start])| + 1
    ensures Readable(d[log.l.start]) && Loggable(log.l, Listed(d[log.l.start]))
    ensures var e := ApplyAll(d, last);
            && Erased(e[log.l.start])
            && forall b: nat :: Home(log.l, b) ==>
                 e[b] == if k <= log.n then log.cache.disk.blocks[b] else log.cache.view[b]
  {
    hide Pinned, LockedAre, CommitWrites, RecoverWrites, Attempts, ApplyAll, Within, Listed, Erased, Readable, Loggable;
    LogState(log, held);
    var disk := log.cache.disk;
    StateSafety(log.l, log.Lh(), log.cache.view, disk.blocks, disk.image, disk.writes, ws, k, tries, d, last);
  }
}
