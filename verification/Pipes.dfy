/** pipe.c: a 512-byte ring with 32-bit counters, shared by sleeping readers and writers. */
module Pipes {
  import opened Blocks

  /** struct pipe's buffer: counters run modulo 2^32. */
  datatype Buf = Buf(data: seq<Byte>, nread: nat, nwrite: nat)

  predicate Full(b: Buf) {
    b.nwrite == (b.nread + 512) % 0x1_0000_0000
  }

  predicate Empty(b: Buf) {
    b.nread == b.nwrite
  }

  function Put(b: Buf, x: Byte): Buf
    requires |b.data| == 512
  {
    b.(data := b.data[b.nwrite % 512 := x], nwrite := (b.nwrite + 1) % 0x1_0000_0000)
  }

  function Drop(b: Buf): Buf {
    b.(nread := (b.nread + 1) % 0x1_0000_0000)
  }

  /** The buffer stands for what was written and not yet read, whatever the counters' wraparound. */
  ghost predicate Stands(b: Buf, written: seq<Byte>, taken: seq<Byte>) {
    && |b.data| == 512 && b.nread == |taken| % 0x1_0000_0000 && b.nwrite == |written| % 0x1_0000_0000
    && |taken| <= |written| <= |taken| + 512 && taken == written[..|taken|]
    && forall x :: |taken| <= x < |written| ==> b.data[x % 512] == written[x]
  }

  lemma Wrap(n: nat)
    ensures n % 0x1_0000_0000 % 512 == n % 512
    ensures (n % 0x1_0000_0000 + 1) % 0x1_0000_0000 == (n + 1) % 0x1_0000_0000
    ensures (n % 0x1_0000_0000 + 512) % 0x1_0000_0000 == (n + 512) % 0x1_0000_0000
  {
  }

  lemma Same32(n: nat, m: nat)
    requires n <= m <= n + 512
    ensures n % 0x1_0000_0000 == m % 0x1_0000_0000 <==> n == m
  {
    if n % 0x1_0000_0000 == m % 0x1_0000_0000 {
      assert (m - n) % 0x1_0000_0000 == 0;
    }
  }

  /** The source's tests on wrapped counters mean what they say. */
  lemma Counters(b: Buf, written: seq<Byte>, taken: seq<Byte>)
    requires Stands(b, written, taken)
    ensures Full(b) <==> |written| == |taken| + 512
    ensures Empty(b) <==> |written| == |taken|
  {
    Wrap(|taken|);
    Same32(|taken|, |written|);
    Same32(|written|, |taken| + 512);
  }

  lemma Slots(x: nat, y: nat)
    requires x < y < x + 512
    ensures x % 512 != y % 512
  {
  }

  lemma PutStands(b: Buf, written: seq<Byte>, taken: seq<Byte>, x: Byte)
    requires Stands(b, written, taken) && !Full(b)
    ensures Stands(Put(b, x), written + [x], taken)
  {
    Counters(b, written, taken);
    Wrap(|written|);
    hide Full;
    var c, w := Put(b, x), written + [x];
    forall k | |taken| <= k < |w| ensures c.data[k % 512] == w[k] {
      if k < |written| {
        Slots(k, |written|);
      }
    }
  }

  lemma DropStands(b: Buf, written: seq<Byte>, taken: seq<Byte>)
    requires Stands(b, written, taken) && !Empty(b)
    ensures Stands(Drop(b), written, taken + [b.data[b.nread % 512]])
  {
    Counters(b, written, taken);
    Wrap(|taken|);
    hide Full, Empty;
    assert b.data[b.nread % 512] == written[|taken|];
  }

  function Smaller(a: int, b: int): int {
    if a < b then a else b
  }

  /** pipewrite's copying: as many bytes as fit. */
  function Filled(b: Buf, bytes: seq<Byte>): Buf
    requires |b.data| == 512
    decreases |bytes|
  {
    if bytes == [] || Full(b) then b else Filled(Put(b, bytes[0]), bytes[1..])
  }

  function Left(b: Buf, bytes: seq<Byte>): (rest: seq<Byte>)
    requires |b.data| == 512
    ensures |rest| <= |bytes|
    decreases |bytes|
  {
    if bytes == [] || Full(b) then bytes else Left(Put(b, bytes[0]), bytes[1..])
  }

  /** piperead's copying: as many bytes as asked for and present. */
  function Drained(b: Buf, n: int): Buf
    decreases if n > 0 then n else 0
  {
    if n <= 0 || Empty(b) then b else Drained(Drop(b), n - 1)
  }

  function Got(b: Buf, n: int): seq<Byte>
    requires |b.data| == 512
    decreases if n > 0 then n else 0
  {
    if n <= 0 || Empty(b) then [] else [b.data[b.nread % 512]] + Got(Drop(b), n - 1)
  }

  lemma {:induction false} FillStands(b: Buf, written: seq<Byte>, taken: seq<Byte>, bytes: seq<Byte>)
    requires Stands(b, written, taken)
    ensures var k := Smaller(|bytes|, |taken| + 512 - |written|);
      Stands(Filled(b, bytes), written + bytes[..k], taken) && Left(b, bytes) == bytes[k..]
    decreases |bytes|
  {
    Counters(b, written, taken);
    var k := Smaller(|bytes|, |taken| + 512 - |written|);
    if bytes == [] || Full(b) {
      assert written + bytes[..k] == written;
    } else {
      PutStands(b, written, taken, bytes[0]);
      FillStands(Put(b, bytes[0]), written + [bytes[0]], taken, bytes[1..]);
      hide Stands;
      assert (written + [bytes[0]]) + bytes[1..][..k - 1] == written + bytes[..k];
      assert bytes[1..][k - 1..] == bytes[k..];
    }
  }

  lemma {:induction false} DrainStands(b: Buf, written: seq<Byte>, taken: seq<Byte>, n: int)
    requires Stands(b, written, taken)
    ensures Stands(Drained(b, n), written, taken + Got(b, n))
    ensures |Got(b, n)| == (if n <= 0 then 0 else Smaller(n, |written| - |taken|))
    decreases if n > 0 then n else 0
  {
    Counters(b, written, taken);
    if n <= 0 || Empty(b) {
      assert taken + Got(b, n) == taken;
    } else {
      DropStands(b, written, taken);
      var x := b.data[b.nread % 512];
      DrainStands(Drop(b), written, taken + [x], n - 1);
      hide Stands;
      assert (taken + [x]) + Got(Drop(b), n - 1) == taken + Got(b, n);
    }
  }

  /** What a process is doing with the pipe. */
  datatype Role = Idle | Writing(rest: seq<Byte>) | WriteAsleep(rest: seq<Byte>) | Reading(n: int) | ReadAsleep(n: int)

  datatype Pipe = Pipe(buf: Buf, readopen: bool, writeopen: bool, roles: seq<Role>, killed: seq<bool>,
                       written: seq<Byte>, taken: seq<Byte>)

  datatype Step = Write(i: nat, bytes: seq<Byte>) | Read(i: nat, n: int) | Run(i: nat) | Kill(i: nat) | CloseWrite | CloseRead

  function WakeReader(r: Role): Role {
    if r.ReadAsleep? then Reading(r.n) else r
  }

  function WakeWriter(r: Role): Role {
    if r.WriteAsleep? then Writing(r.rest) else r
  }

  function WakeReaders(rs: seq<Role>): (q: seq<Role>)
    ensures |q| == |rs| && forall i :: 0 <= i < |rs| ==> q[i] == WakeReader(rs[i])
  {
    seq(|rs|, i requires 0 <= i < |rs| => WakeReader(rs[i]))
  }

  function WakeWriters(rs: seq<Role>): (q: seq<Role>)
    ensures |q| == |rs| && forall i :: 0 <= i < |rs| ==> q[i] == WakeWriter(rs[i])
  {
    seq(|rs|, i requires 0 <= i < |rs| => WakeWriter(rs[i]))
  }

  predicate IsWriter(r: Role) {
    r.Writing? || r.WriteAsleep?
  }

  predicate IsReader(r: Role) {
    r.Reading? || r.ReadAsleep?
  }

  /** pipewrite from the lock to its release or sleep. */
  function RunWriter(p: Pipe, i: nat): Pipe
    requires i < |p.roles| && |p.killed| == |p.roles| && |p.buf.data| == 512 && p.roles[i].Writing?
  {
    var bytes := p.roles[i].rest;
    var rest := Left(p.buf, bytes);
    var q := p.(buf := Filled(p.buf, bytes), written := p.written + bytes[..|bytes| - |rest|]);
    if rest == [] then q.(roles := WakeReaders(p.roles)[i := Idle])
    else if !p.readopen || p.killed[i] then q.(roles := p.roles[i := Idle])
    else q.(roles := WakeReaders(p.roles)[i := WriteAsleep(rest)])
  }

  /** piperead from the lock to its release or sleep. */
  function RunReader(p: Pipe, i: nat): Pipe
    requires i < |p.roles| && |p.killed| == |p.roles| && |p.buf.data| == 512 && p.roles[i].Reading?
  {
    var n := p.roles[i].n;
    if Empty(p.buf) && p.writeopen then p.(roles := p.roles[i := if p.killed[i] then Idle else ReadAsleep(n)])
    else p.(buf := Drained(p.buf, n), taken := p.taken + Got(p.buf, n), roles := WakeWriters(p.roles)[i := Idle])
  }

  /** An end is closed only when no call on it is in progress. */
  ghost predicate Enabled(p: Pipe, a: Step) {
    match a
    case Write(i, _) => i < |p.roles| && p.roles[i].Idle? && p.writeopen
    case Read(i, _) => i < |p.roles| && p.roles[i].Idle? && p.readopen
    case Run(i) => i < |p.roles| && (p.roles[i].Writing? || p.roles[i].Reading?)
    case Kill(i) => i < |p.roles|
    case CloseWrite => p.writeopen && forall i :: 0 <= i < |p.roles| ==> !IsWriter(p.roles[i])
    case CloseRead => p.readopen && forall i :: 0 <= i < |p.roles| ==> !IsReader(p.roles[i])
  }

  function Next(p: Pipe, a: Step): Pipe
    requires |p.killed| == |p.roles| && |p.buf.data| == 512
  {
    match a
    case Write(i, bytes) => if i < |p.roles| then p.(roles := p.roles[i := Writing(bytes)]) else p
    case Read(i, n) => if i < |p.roles| then p.(roles := p.roles[i := Reading(n)]) else p
    case Run(i) =>
      if i >= |p.roles| then p
      else if p.roles[i].Writing? then RunWriter(p, i)
      else if p.roles[i].Reading? then RunReader(p, i)
      else p
    case Kill(i) =>
      if i < |p.roles|
      then p.(killed := p.killed[i := true], roles := p.roles[i := WakeReader(WakeWriter(p.roles[i]))])
      else p
    case CloseWrite => p.(writeopen := false, roles := WakeReaders(p.roles))
    case CloseRead => p.(readopen := false, roles := WakeWriters(p.roles))
  }

  ghost predicate OpenOk(p: Pipe) {
    forall i :: 0 <= i < |p.roles| ==> (IsWriter(p.roles[i]) ==> p.writeopen) && (IsReader(p.roles[i]) ==> p.readopen)
  }

  /** What holds in every reachable state, kills included. */
  ghost predicate Inv(p: Pipe) {
    Stands(p.buf, p.written, p.taken) && |p.killed| == |p.roles| && OpenOk(p)
  }

  lemma WriterInv(p: Pipe, i: nat)
    requires Inv(p) && i < |p.roles| && p.roles[i].Writing?
    ensures Inv(RunWriter(p, i))
    ensures var k := Smaller(|p.roles[i].rest|, |p.taken| + 512 - |p.written|);
      RunWriter(p, i).written == p.written + p.roles[i].rest[..k] && |Left(p.buf, p.roles[i].rest)| == |p.roles[i].rest| - k
  {
    FillStands(p.buf, p.written, p.taken, p.roles[i].rest);
    hide Stands, Filled, Left;
  }

  lemma ReaderInv(p: Pipe, i: nat)
    requires Inv(p) && i < |p.roles| && p.roles[i].Reading?
    ensures Inv(RunReader(p, i))
  {
    DrainStands(p.buf, p.written, p.taken, p.roles[i].n);
    hide Stands, Drained, Got, Empty;
  }

  /** How much a read of n takes, and a write of n puts, of the bytes or the room there is. */
  function Much(n: int, there: nat): (k: nat)
    ensures k <= there
  {
    if n <= 0 then 0 else if n < there then n else there
  }

  /** piperead takes the oldest bytes not yet taken, as many as asked for and there, wakes all sleeping
      writers and is done; only on an empty pipe with its write end open does it take nothing and
      sleep, or leave if it was killed. */
  lemma ReadsAll(p: Pipe, i: nat)
    requires Inv(p) && i < |p.roles| && p.roles[i].Reading?
    ensures var q, t := RunReader(p, i), |p.taken|;
      && q.written == p.written && q.readopen == p.readopen && q.writeopen == p.writeopen && q.killed == p.killed
      && |q.roles| == |p.roles| && t <= |p.written|
      && if p.taken == p.written && p.writeopen
         then && q.buf == p.buf && q.taken == p.taken
              && q.roles == p.roles[i := if p.killed[i] then Idle else ReadAsleep(p.roles[i].n)]
         else && q.taken == p.taken + p.written[t..t + Much(p.roles[i].n, |p.written| - t)]
              && q.roles[i] == Idle
              && forall j :: 0 <= j < |p.roles| && j != i ==>
                   q.roles[j] == if p.roles[j].WriteAsleep? then Writing(p.roles[j].rest) else p.roles[j]
  {
    var q, n := RunReader(p, i), p.roles[i].n;
    Counters(p.buf, p.written, p.taken);
    DrainStands(p.buf, p.written, p.taken, n);
    assert p.taken + Got(p.buf, n) <= p.written;
    hide Drained, Got, Empty, Full;
    if !(p.taken == p.written && p.writeopen) {
      var k := Much(n, |p.written| - |p.taken|);
      assert q.taken == p.written[..|p.taken| + k];
    }
  }

  /** pipewrite puts as many bytes as there is room for; when all are in it wakes all sleeping readers
      and is done; otherwise it leaves at once if the read end is closed or it was killed, and else
      wakes the readers and sleeps with the rest. */
  lemma WritesAll(p: Pipe, i: nat)
    requires Inv(p) && i < |p.roles| && p.roles[i].Writing?
    ensures var q, bytes := RunWriter(p, i), p.roles[i].rest;
      && q.taken == p.taken && q.readopen == p.readopen && q.writeopen == p.writeopen && q.killed == p.killed
      && |q.roles| == |p.roles| && |p.written| <= |p.taken| + 512
      && var k := Much(|bytes|, |p.taken| + 512 - |p.written|);
         && q.written == p.written + bytes[..k]
         && (k < |bytes| && (!p.readopen || p.killed[i]) ==> q.roles == p.roles[i := Idle])
         && (k == |bytes| || (p.readopen && !p.killed[i]) ==>
               && q.roles[i] == (if k == |bytes| then Idle else WriteAsleep(bytes[k..]))
               && forall j :: 0 <= j < |p.roles| && j != i ==>
                    q.roles[j] == if p.roles[j].ReadAsleep? then Reading(p.roles[j].n) else p.roles[j])
  {
    FillStands(p.buf, p.written, p.taken, p.roles[i].rest);
    WriterInv(p, i);
    hide Filled, Left, Full, Empty;
  }

  lemma StepInv(p: Pipe, a: Step)
    requires Inv(p) && Enabled(p, a)
    ensures Inv(Next(p, a))
  {
    hide Stands, RunWriter, RunReader;
    match a
    case Run(i) =>
      if p.roles[i].Writing? {
        WriterInv(p, i);
      } else {
        ReaderInv(p, i);
      }
    case _ =>
  }

  /** A sleeping reader means an empty pipe with its write end open, a sleeping writer a full one with its read end open. */
  ghost predicate SleepOk(p: Pipe) {
    forall i :: 0 <= i < |p.roles| ==>
      && (p.roles[i].ReadAsleep? ==> Empty(p.buf) && p.writeopen)
      && (p.roles[i].WriteAsleep? ==> Full(p.buf) && p.readopen)
  }

  ghost predicate SomeReaderAsleep(p: Pipe) {
    exists i :: 0 <= i < |p.roles| && p.roles[i].ReadAsleep?
  }

  /** A killed writer with more to write than fits leaves a full pipe and does not wake the sleeping readers. */
  ghost predicate LeavesSilently(p: Pipe, a: Step) {
    a.Run? && a.i < |p.roles| && |p.killed| == |p.roles| && p.roles[a.i].Writing? && |p.roles[a.i].rest| > 512 && p.killed[a.i]
    && SomeReaderAsleep(p)
  }

  lemma WriterSleep(p: Pipe, i: nat)
    requires Inv(p) && SleepOk(p) && i < |p.roles| && p.roles[i].Writing?
    ensures SleepOk(RunWriter(p, i)) <==> !LeavesSilently(p, Run(i))
  {
    var q, bytes := RunWriter(p, i), p.roles[i].rest;
    FillStands(p.buf, p.written, p.taken, bytes);
    Counters(p.buf, p.written, p.taken);
    WriterInv(p, i);
    Counters(q.buf, q.written, q.taken);
    hide Stands, Full, Empty, Filled, Left;
    assert SomeReaderAsleep(p) ==> |p.written| == |p.taken| && p.readopen;
    assert |q.written| == |p.written| + Smaller(|bytes|, |p.taken| + 512 - |p.written|);
    if LeavesSilently(p, Run(i)) {
      var j :| 0 <= j < |p.roles| && p.roles[j].ReadAsleep?;
      assert q.roles[j].ReadAsleep? && |q.written| != |q.taken|;
    } else {
      SleepKept(p, q, i);
    }
  }

  lemma SleepKept(p: Pipe, q: Pipe, i: nat)
    requires Inv(p) && SleepOk(p) && i < |p.roles| && p.roles[i].Writing? && q == RunWriter(p, i) && !LeavesSilently(p, Run(i))
    requires Full(p.buf) <==> |p.written| == |p.taken| + 512
    requires Empty(p.buf) <==> |p.written| == |p.taken|
    requires Full(q.buf) <==> |q.written| == |q.taken| + 512
    requires |q.written| == |p.written| + Smaller(|p.roles[i].rest|, |p.taken| + 512 - |p.written|) && q.taken == p.taken
    requires |Left(p.buf, p.roles[i].rest)| == |p.roles[i].rest| - Smaller(|p.roles[i].rest|, |p.taken| + 512 - |p.written|)
    requires |p.taken| <= |p.written| <= |p.taken| + 512
    ensures SleepOk(q)
  {
    hide Stands, Full, Empty, Filled, Left;
    forall j | 0 <= j < |q.roles|
      ensures (q.roles[j].ReadAsleep? ==> Empty(q.buf) && q.writeopen) && (q.roles[j].WriteAsleep? ==> Full(q.buf) && q.readopen) {
      assert p.roles[j].ReadAsleep? ==> SomeReaderAsleep(p);
    }
  }

  lemma ReaderSleep(p: Pipe, i: nat)
    requires Inv(p) && SleepOk(p) && i < |p.roles| && p.roles[i].Reading?
    ensures SleepOk(RunReader(p, i))
  {
    hide Drained, Got, Full, Empty;
  }

  lemma StepSleep(p: Pipe, a: Step)
    requires Inv(p) && SleepOk(p) && Enabled(p, a)
    ensures SleepOk(Next(p, a)) <==> !LeavesSilently(p, a)
  {
    hide Stands, RunWriter, RunReader, Full, Empty;
    match a
    case Run(i) =>
      if p.roles[i].Writing? {
        WriterSleep(p, i);
      } else {
        ReaderSleep(p, i);
      }
    case _ =>
  }

  ghost predicate Init(p: Pipe) {
    && |p.buf.data| == 512 && p.buf.nread == 0 && p.buf.nwrite == 0 && p.readopen && p.writeopen
    && |p.killed| == |p.roles| && (forall i :: 0 <= i < |p.roles| ==> p.roles[i] == Idle && !p.killed[i])
    && p.written == [] && p.taken == []
  }

  /** A run: the pipe after each step, every step enabled. */
  ghost predicate IsRun(ps: seq<Pipe>, steps: seq<Step>) {
    && |ps| == |steps| + 1
    && forall k :: 0 <= k < |steps| ==>
      |ps[k].killed| == |ps[k].roles| && |ps[k].buf.data| == 512 && Enabled(ps[k], steps[k]) && ps[k + 1] == Next(ps[k], steps[k])
  }

  lemma {:induction false} RunInv(ps: seq<Pipe>, steps: seq<Step>, k: nat)
    requires IsRun(ps, steps) && Init(ps[0]) && k < |ps|
    ensures Inv(ps[k])
  {
    if k > 0 {
      RunInv(ps, steps, k - 1);
      assert ps[k - 1 + 1] == Next(ps[k - 1], steps[k - 1]);
      StepInv(ps[k - 1], steps[k - 1]);
    }
  }

  /** What is read is what was written, in order; the ring holds exactly the difference. */
  lemma BytesInOrder(ps: seq<Pipe>, steps: seq<Step>, k: nat)
    requires IsRun(ps, steps) && Init(ps[0]) && k < |ps|
    ensures ps[k].taken <= ps[k].written && |ps[k].written| - |ps[k].taken| <= 512 && |ps[k].buf.data| == 512
    ensures forall x :: |ps[k].taken| <= x < |ps[k].written| ==> ps[k].buf.data[x % 512] == ps[k].written[x]
    ensures Empty(ps[k].buf) <==> ps[k].taken == ps[k].written
  {
    RunInv(ps, steps, k);
    Counters(ps[k].buf, ps[k].written, ps[k].taken);
    hide IsRun, Init;
  }

  /** The bytes process i put into the pipe in one step, and in steps a to b of a run. */
  function Part(p: Pipe, a: Step, q: Pipe, i: nat): seq<Byte> {
    if a == Run(i) && |p.written| <= |q.written| then q.written[|p.written|..] else []
  }

  ghost function Given(ps: seq<Pipe>, steps: seq<Step>, i: nat, a: nat, b: nat): seq<Byte>
    requires a <= b <= |steps| < |ps|
  {
    if a == b then [] else Given(ps, steps, i, a, b - 1) + Part(ps[b - 1], steps[b - 1], ps[b], i)
  }

  /** Where a write call of `bytes` by i stands when it has put `given`. */
  predicate Stage(p: Pipe, i: nat, given: seq<Byte>, bytes: seq<Byte>) {
    && i < |p.roles| == |p.killed|
    && if IsWriter(p.roles[i]) then given + p.roles[i].rest == bytes
       else p.roles[i] == Idle && (given == bytes || (given <= bytes && (p.killed[i] || !p.readopen)))
  }

  /** What others do does not change what a writer has still to write. */
  lemma OthersKeep(p: Pipe, a: Step, i: nat)
    requires Inv(p) && Enabled(p, a) && i < |p.roles| && IsWriter(p.roles[i]) && a != Run(i)
    ensures |Next(p, a).roles| == |Next(p, a).killed| == |p.roles|
    ensures IsWriter(Next(p, a).roles[i]) && Next(p, a).roles[i].rest == p.roles[i].rest
  {
    hide Filled, Left, Drained, Got, Full, Empty, Stands;
  }

  lemma Append(was: seq<Byte>, given: seq<Byte>, bytes: seq<Byte>, rest: seq<Byte>, k: nat)
    requires given + rest == bytes && k <= |rest|
    ensures (was + rest[..k])[|was|..] == rest[..k] && given + rest[..k] + rest[k..] == bytes
    ensures given + rest[..k] <= bytes && (k == |rest| ==> given + rest[..k] == bytes)
  {
    assert rest == rest[..k] + rest[k..];
  }

  lemma CallStep(p: Pipe, a: Step, i: nat, given: seq<Byte>, bytes: seq<Byte>)
    requires Inv(p) && Enabled(p, a) && i < |p.roles| && IsWriter(p.roles[i]) && Stage(p, i, given, bytes)
    ensures Stage(Next(p, a), i, given + Part(p, a, Next(p, a), i), bytes) && i < |Next(p, a).roles|
    ensures !IsWriter(Next(p, a).roles[i]) ==> a == Run(i)
  {
    if a == Run(i) {
      WritesAll(p, i);
      hide RunWriter, Stands;
      var rest := p.roles[i].rest;
      Append(p.written, given, bytes, rest, Much(|rest|, |p.taken| + 512 - |p.written|));
    } else {
      OthersKeep(p, a, i);
      hide Next;
      assert given + [] == given;
    }
  }

  /** A write call as a whole, whatever happens between its sleeps: while it lasts, what it has put and
      what it still has make up its bytes; when it ends it has put all of them, or was killed or found
      the read end closed, and has put a beginning. */
  lemma {:induction false} WriteCall(ps: seq<Pipe>, steps: seq<Step>, i: nat, a: nat, b: nat, bytes: seq<Byte>)
    requires IsRun(ps, steps) && Init(ps[0]) && a < b <= |steps| && steps[a] == Write(i, bytes)
    requires forall k :: a < k < b ==> i < |ps[k].roles| && IsWriter(ps[k].roles[i])
    ensures Stage(ps[b], i, Given(ps, steps, i, a + 1, b), bytes) && i < |ps[b].roles|
    ensures !IsWriter(ps[b].roles[i]) ==> steps[b - 1] == Run(i)
    decreases b
  {
    hide IsRun, Init, Inv, Next, Enabled, Part, Stage;
    RunAt(ps, steps, b - 1);
    if b > a + 1 {
      WriteCall(ps, steps, i, a, b - 1, bytes);
      CallStep(ps[b - 1], steps[b - 1], i, Given(ps, steps, i, a + 1, b - 1), bytes);
    } else {
      CallBegins(ps[a], i, bytes);
    }
  }

  lemma RunAt(ps: seq<Pipe>, steps: seq<Step>, k: nat)
    requires IsRun(ps, steps) && Init(ps[0]) && k < |steps|
    ensures |ps| == |steps| + 1 && Inv(ps[k]) && Enabled(ps[k], steps[k]) && |ps[k].killed| == |ps[k].roles| && |ps[k].buf.data| == 512
    ensures ps[k + 1] == Next(ps[k], steps[k])
  {
    RunInv(ps, steps, k);
  }

  lemma CallBegins(p: Pipe, i: nat, bytes: seq<Byte>)
    requires Inv(p) && Enabled(p, Write(i, bytes)) && |p.killed| == |p.roles| && |p.buf.data| == 512
    ensures i < |Next(p, Write(i, bytes)).roles| && IsWriter(Next(p, Write(i, bytes)).roles[i])
    ensures Stage(Next(p, Write(i, bytes)), i, [], bytes)
  {
    assert [] + bytes == bytes;
  }

  lemma {:induction false} RunSleep(ps: seq<Pipe>, steps: seq<Step>, k: nat)
    requires IsRun(ps, steps) && Init(ps[0]) && k < |ps|
    requires forall j :: 0 <= j < k ==> !LeavesSilently(ps[j], steps[j])
    ensures SleepOk(ps[k])
  {
    if k > 0 {
      RunSleep(ps, steps, k - 1);
      RunInv(ps, steps, k - 1);
      assert ps[k - 1 + 1] == Next(ps[k - 1], steps[k - 1]);
      StepSleep(ps[k - 1], steps[k - 1]);
    }
  }

  lemma {:induction false} NobodyKilled(ps: seq<Pipe>, steps: seq<Step>, k: nat)
    requires IsRun(ps, steps) && Init(ps[0]) && k < |ps|
    requires forall j :: 0 <= j < k ==> !steps[j].Kill?
    ensures |ps[k].killed| == |ps[k].roles| && forall i :: 0 <= i < |ps[k].killed| ==> !ps[k].killed[i]
  {
    if k > 0 {
      NobodyKilled(ps, steps, k - 1);
      assert ps[k - 1 + 1] == Next(ps[k - 1], steps[k - 1]);
      hide Filled, Left, Drained, Got;
    }
  }

  /** Without kills a reader and a writer are never both asleep. */
  lemma NeverBothAsleep(ps: seq<Pipe>, steps: seq<Step>, k: nat, i: nat, j: nat)
    requires IsRun(ps, steps) && Init(ps[0]) && k < |ps| && (forall m :: 0 <= m < k ==> !steps[m].Kill?)
    requires i < |ps[k].roles| && j < |ps[k].roles|
    ensures !(ps[k].roles[i].ReadAsleep? && ps[k].roles[j].WriteAsleep?)
  {
    forall m | 0 <= m < k ensures !LeavesSilently(ps[m], steps[m]) {
      NobodyKilled(ps, steps, m);
    }
    RunSleep(ps, steps, k);
    RunInv(ps, steps, k);
    Counters(ps[k].buf, ps[k].written, ps[k].taken);
    hide IsRun, Init;
  }

  /** With a kill they can be: a reader asleep on a full pipe. */
  lemma KilledWriter(p: Pipe, bytes: seq<Byte>) returns (ps: seq<Pipe>, steps: seq<Step>)
    requires Init(p) && |p.roles| == 2 && |bytes| > 512
    ensures IsRun(ps, steps) && ps[0] == p && |ps| == 6
    ensures ps[5].roles == [ReadAsleep(1), Idle] && Full(ps[5].buf)
  {
    steps := [Read(0, 1), Run(0), Write(1, bytes), Kill(1), Run(1)];
    var p1 := Next(p, steps[0]);
    var p2 := Next(p1, steps[1]);
    assert p2.roles == [ReadAsleep(1), Idle];
    var p3 := Next(p2, steps[2]);
    var p4 := Next(p3, steps[3]);
    assert p4.roles == [ReadAsleep(1), Writing(bytes)] && p4.killed[1] && p4.buf == p.buf && p4.written == [] == p4.taken;
    var p5 := Next(p4, steps[4]);
    FillStands(p.buf, [], [], bytes);
    Counters(p5.buf, [] + bytes[..512], []);
    hide Stands, Filled, Left, Full;
    assert p5.roles == [ReadAsleep(1), Idle];
    ps := [p, p1, p2, p3, p4, p5];
  }

  /** struct pipe's buffer in memory. */
  class Ring {
    const data: array<Byte>
    var nread: nat
    var nwrite: nat

    ghost predicate Valid()
      reads this
    {
      data.Length == 512 && nread < 0x1_0000_0000 && nwrite < 0x1_0000_0000
    }

    ghost function B(): Buf
      reads this, data
    {
      Buf(data[..], nread, nwrite)
    }

    /** pipealloc's part */
    constructor ()
      ensures Valid() && nread == 0 && nwrite == 0
    {
      data := new Byte[512](_ => 0);
      nread, nwrite := 0, 0;
    }

    /** pipewrite's copying loop, up to its end or the next full pipe. */
    method Fill(addr: seq<Byte>) returns (i: nat)
      requires Valid()
      modifies this, data
      ensures Valid() && B() == Filled(old(B()), addr)
      ensures i <= |addr| && addr[i..] == Left(old(B()), addr) && (i < |addr| ==> Full(B()))
    {
      i := 0;
      while i < |addr| && nwrite != (nread + 512) % 0x1_0000_0000
        invariant Valid() && i <= |addr|
        invariant Filled(B(), addr[i..]) == Filled(old(B()), addr) && Left(B(), addr[i..]) == Left(old(B()), addr)
      {
        ghost var b := B();
        data[nwrite % 512] := addr[i];
        nwrite := (nwrite + 1) % 0x1_0000_0000;
        assert B() == Put(b, addr[i]) && addr[i..][1..] == addr[i + 1..];
        i := i + 1;
      }
    }

    /** piperead's copying loop. */
    method Drain(n: int) returns (out: seq<Byte>)
      requires Valid()
      modifies this`nread
      ensures Valid() && B() == Drained(old(B()), n) && out == Got(old(B()), n)
    {
      out := [];
      var i := 0;
      while i < n && nread != nwrite
        invariant Valid() && 0 <= i && (i <= n || i == 0)
        invariant Drained(B(), n - i) == Drained(old(B()), n) && out + Got(B(), n - i) == Got(old(B()), n)
      {
        ghost var b := B();
        out := out + [data[nread % 512]];
        nread := (nread + 1) % 0x1_0000_0000;
        assert B() == Drop(b);
        i := i + 1;
      }
      assert out + Got(B(), n - i) == out;
    }
  }
}
