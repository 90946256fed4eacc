/**
 * proc.c as a machine of atomic steps: each step is what one CPU or one interrupt does
 * between taking and dropping ptable.lock.
 */
module Processes {
  import opened Options

  datatype RunState = Unused | Embryo | Sleeping | Runnable | Running | Zombie

  /** A sleep channel: a process-table slot (wait) or any other kernel address. */
  datatype Chan = NoChan | OfProc(slot: nat) | Other(address: nat)

  /** A table slot. `np` is fork's local variable: the child being set up. */
  datatype Proc = Proc(state: RunState, pid: nat, parent: Option<nat>, chan: Chan, killed: bool,
                       nice: int, priority: int, original: int, np: Option<nat>)

  /** initproc's slot: userinit takes the first one. */
  const INIT: nat := 0

  const NLOCK: nat := 7

  /**
   * cpus[c] is the process current on CPU c, locks[id] the recorded holder. The rest is history:
   * pids that exited, pids wait() returned, and the priorities asked of each slot's process by
   * sys_lock since its allocation or its last effective release.
   */
  datatype Table = Table(procs: seq<Proc>, cpus: seq<Option<nat>>, locks: seq<Option<nat>>, nextpid: nat,
                         exited: set<nat>, reaped: seq<nat>, asked: seq<seq<int>>)

  datatype Step =
    | Dispatch(c: nat)
    | TakeTurn(c: nat, k: nat)
    | Yield(c: nat)
    | Sleep(c: nat, address: nat)
    | Wakeup(address: nat)
    | ForkAlloc(c: nat)
    | ForkFail(c: nat)
    | ForkDone(c: nat)
    | Exit(c: nat)
    | Wait(c: nat)
    | Kill(pid: int)
    | Nice(pid: int, value: int)
    | Lock(c: nat, id: int)
    | Release(c: nat, id: int)

  predicate Alive(p: Proc) {
    p.state == Sleeping || p.state == Runnable || p.state == Running
  }

  predicate Began(p: Proc) {
    Alive(p) || p.state == Zombie
  }

  predicate Child(p: Proc, s: nat) {
    p.parent == Some(s)
  }

  predicate ZombieChild(p: Proc, s: nat) {
    Child(p, s) && p.state == Zombie
  }

  /** What the loops over the table look for. */
  datatype Test = IsUnused | HasPid(pid: int) | InUse(pid: int) | ChildOf(s: nat) | ZombieOf(s: nat)

  predicate Holds(test: Test, p: Proc) {
    match test
    case IsUnused => p.state == Unused
    case HasPid(pid) => p.pid == pid
    case InUse(pid) => p.pid == pid && p.state != Unused
    case ChildOf(s) => Child(p, s)
    case ZombieOf(s) => ZombieChild(p, s)
  }

  /** The first slot that passes the test, |ps| when there is none. */
  function First(ps: seq<Proc>, test: Test, from: nat := 0): (k: nat)
    requires from <= |ps|
    ensures from <= k <= |ps|
    ensures forall j :: from <= j < k ==> !Holds(test, ps[j])
    ensures k < |ps| ==> Holds(test, ps[k])
    decreases |ps| - from
  {
    if from == |ps| || Holds(test, ps[from]) then from else First(ps, test, from + 1)
  }

  predicate Any(ps: seq<Proc>, test: Test) {
    First(ps, test) < |ps|
  }

  function Woken(p: Proc, chan: Chan): Proc {
    if p.state == Sleeping && p.chan == chan then p.(state := Runnable) else p
  }

  /** wakeup1 */
  function WakeAll(ps: seq<Proc>, chan: Chan): (r: seq<Proc>)
    ensures |r| == |ps| && forall i :: 0 <= i < |ps| ==> r[i] == Woken(ps[i], chan)
  {
    seq(|ps|, i requires 0 <= i < |ps| => Woken(ps[i], chan))
  }

  /** exit's walk over the table: children of s go to init, which is woken if one is a zombie. */
  function Adopted(p: Proc, s: nat, wakeInit: bool): Proc {
    var q := if Child(p, s) then p.(parent := Some(INIT)) else p;
    if wakeInit then Woken(q, OfProc(INIT)) else q
  }

  function AdoptAll(ps: seq<Proc>, s: nat): (r: seq<Proc>)
    ensures |r| == |ps| && forall i :: 0 <= i < |ps| ==> r[i] == Adopted(ps[i], s, Any(ps, ZombieOf(s)))
  {
    seq(|ps|, i requires 0 <= i < |ps| => Adopted(ps[i], s, Any(ps, ZombieOf(s))))
  }

  /** exit() of slot s, whose parent is q. */
  function ExitAll(ps: seq<Proc>, s: nat, q: nat): seq<Proc>
    requires s < |ps|
  {
    var after := AdoptAll(WakeAll(ps, OfProc(q)), s);
    after[s := after[s].(state := Zombie)]
  }

  /** What wait() clears in the slot it collects. */
  function Collected(p: Proc): Proc {
    p.(state := Unused, pid := 0, parent := None, killed := false)
  }

  /** Among the first n slots, k is runnable with the least priority value, the lowest slot among equals. */
  ghost predicate Best(ps: seq<Proc>, n: nat, k: nat)
    requires n <= |ps|
  {
    && k < n && ps[k].state == Runnable
    && (forall j :: 0 <= j < n && ps[j].state == Runnable ==> ps[k].priority <= ps[j].priority)
    && (forall j :: 0 <= j < k && ps[j].state == Runnable ==> ps[k].priority < ps[j].priority)
  }

  /** The scheduler's choice. */
  ghost predicate Chosen(ps: seq<Proc>, k: nat) {
    Best(ps, |ps|, k)
  }

  ghost predicate Idle(ps: seq<Proc>) {
    forall j :: 0 <= j < |ps| ==> ps[j].state != Runnable
  }

  predicate OnCpu(t: Table, c: nat) {
    c < |t.cpus| && t.cpus[c].Some? && t.cpus[c].value < |t.procs|
  }

  function Cur(t: Table, c: nat): nat
    requires OnCpu(t, c)
  {
    t.cpus[c].value
  }

  function Put(t: Table, s: nat, p: Proc): Table
    requires s < |t.procs|
  {
    t.(procs := t.procs[s := p])
  }

  /** The process on CPU c, having changed to p, gives the CPU up. */
  function Leave(t: Table, c: nat, p: Proc): Table
    requires OnCpu(t, c)
  {
    Put(t, Cur(t, c), p).(cpus := t.cpus[c := None])
  }

  function Dispatched(t: Table, c: nat, k: nat): Table
    requires c < |t.cpus| && k < |t.procs|
  {
    Put(t, k, t.procs[k].(state := Running, chan := NoChan)).(cpus := t.cpus[c := Some(k)])
  }

  /** The fresh process allocproc makes in slot k. */
  function Fresh(p: Proc, pid: nat): Proc {
    p.(state := Embryo, pid := pid, nice := 3, priority := 3, original := -1, np := None)
  }

  function AfterForkAlloc(t: Table, c: nat): Table
    requires OnCpu(t, c) && |t.asked| == |t.procs|
  {
    var s, k := Cur(t, c), First(t.procs, IsUnused);
    if k == |t.procs| then t
    else
      var u := Put(t, k, Fresh(t.procs[k], t.nextpid));
      Put(u, s, u.procs[s].(np := Some(k))).(nextpid := t.nextpid + 1, asked := t.asked[k := []])
  }

  function AfterForkFail(t: Table, c: nat): Table
    requires OnCpu(t, c) && t.procs[Cur(t, c)].np.Some? && t.procs[Cur(t, c)].np.value < |t.procs|
  {
    var s := Cur(t, c);
    var k := t.procs[s].np.value;
    var u := Put(t, k, t.procs[k].(state := Unused));
    Put(u, s, u.procs[s].(np := None))
  }

  function AfterForkDone(t: Table, c: nat): Table
    requires OnCpu(t, c) && t.procs[Cur(t, c)].np.Some? && t.procs[Cur(t, c)].np.value < |t.procs|
  {
    var s := Cur(t, c);
    var k := t.procs[s].np.value;
    var u := Put(t, k, t.procs[k].(state := Runnable, parent := Some(s)));
    Put(u, s, u.procs[s].(np := None))
  }

  function AfterExit(t: Table, c: nat): Table
    requires OnCpu(t, c) && t.procs[Cur(t, c)].parent.Some?
  {
    var s := Cur(t, c);
    t.(procs := ExitAll(t.procs, s, t.procs[s].parent.value), cpus := t.cpus[c := None],
       exited := t.exited + {t.procs[s].pid})
  }

  /** One pass of wait's loop: collect a zombie child, give up, or go to sleep. */
  function AfterWait(t: Table, c: nat): Table
    requires OnCpu(t, c)
  {
    var s := Cur(t, c);
    var k := First(t.procs, ZombieOf(s));
    if k < |t.procs| then
      Put(t, k, Collected(t.procs[k])).(reaped := t.reaped + [t.procs[k].pid])
    else if !Any(t.procs, ChildOf(s)) || t.procs[s].killed then t
    else Leave(t, c, t.procs[s].(chan := OfProc(s), state := Sleeping))
  }

  function AfterKill(t: Table, pid: int): Table {
    var k := First(t.procs, HasPid(pid));
    if k == |t.procs| then t
    else
      var p := t.procs[k].(killed := true);
      Put(t, k, if p.state == Sleeping then p.(state := Runnable) else p)
  }

  function AfterNice(t: Table, pid: int, value: int): Table
    requires |t.asked| == |t.procs|
  {
    var k := First(t.procs, InUse(pid));
    if value < 1 || value > 5 || k == |t.procs| then t
    else Put(t, k, t.procs[k].(nice := value, priority := value))
  }

  predicate LockId(t: Table, id: int) {
    0 <= id < NLOCK && |t.locks| == NLOCK
  }

  /** sys_lock: take a free lock; otherwise lend the holder the caller's priority and return. */
  function AfterLock(t: Table, c: nat, id: int): Table
    requires OnCpu(t, c) && |t.asked| == |t.procs|
  {
    if !LockId(t, id) then t
    else
      var s := Cur(t, c);
      if t.locks[id].None? then t.(locks := t.locks[id := Some(s)])
      else
        var h, asks := t.locks[id].value, t.procs[s].priority;
        if h >= |t.procs| then t
        else Put(t, h, Boosted(t.procs[h], asks)).(asked := t.asked[h := t.asked[h] + [asks]])
  }

  function Boosted(p: Proc, asks: int): Proc {
    if asks < p.priority
    then p.(original := if p.original == -1 then p.priority else p.original, priority := asks)
    else p
  }

  function Restored(p: Proc): Proc {
    if p.original != -1 then p.(priority := p.original, original := -1) else p
  }

  /** sys_release: only the recorded holder's call has an effect. */
  function AfterRelease(t: Table, c: nat, id: int): Table
    requires OnCpu(t, c) && |t.asked| == |t.procs|
  {
    if !LockId(t, id) then t
    else
      var s := Cur(t, c);
      if t.locks[id] == Some(s)
      then Put(t, s, Restored(t.procs[s])).(locks := t.locks[id := None], asked := t.asked[s := []])
      else t
  }

  /** Who may take a step: a running process acts on its own CPU, and fork runs to its end before exit or wait. */
  ghost predicate Enabled(t: Table, a: Step) {
    match a
    case Dispatch(c) => c < |t.cpus| && t.cpus[c].None?
    case TakeTurn(c, k) => c < |t.cpus| && t.cpus[c].None? && k < |t.procs| && t.procs[k].state == Runnable
    case Yield(c) => OnCpu(t, c)
    case Sleep(c, _) => OnCpu(t, c)
    case Wakeup(_) => true
    case ForkAlloc(c) => OnCpu(t, c) && t.procs[Cur(t, c)].np.None?
    case ForkFail(c) => OnCpu(t, c) && t.procs[Cur(t, c)].np.Some?
    case ForkDone(c) => OnCpu(t, c) && t.procs[Cur(t, c)].np.Some?
    case Exit(c) => OnCpu(t, c) && t.procs[Cur(t, c)].np.None? && Cur(t, c) != INIT
    case Wait(c) => OnCpu(t, c) && t.procs[Cur(t, c)].np.None?
    case Kill(_) => true
    case Nice(_, _) => true
    case Lock(c, _) => OnCpu(t, c)
    case Release(c, _) => OnCpu(t, c)
  }

  /** The step relation. Dispatch is the priority scheduler, TakeTurn the round-robin one. */
  ghost predicate Next(t: Table, a: Step, u: Table) {
    && Enabled(t, a)
    && |t.asked| == |t.procs|
    && match a
       case Dispatch(c) => (Idle(t.procs) && u == t) || exists k :: Chosen(t.procs, k) && u == Dispatched(t, c, k)
       case TakeTurn(c, k) => u == Dispatched(t, c, k)
       case Yield(c) => u == Leave(t, c, t.procs[Cur(t, c)].(state := Runnable))
       case Sleep(c, n) => u == Leave(t, c, t.procs[Cur(t, c)].(chan := Other(n), state := Sleeping))
       case Wakeup(n) => u == t.(procs := WakeAll(t.procs, Other(n)))
       case ForkAlloc(c) => u == AfterForkAlloc(t, c)
       case ForkFail(c) => t.procs[Cur(t, c)].np.value < |t.procs| && u == AfterForkFail(t, c)
       case ForkDone(c) => t.procs[Cur(t, c)].np.value < |t.procs| && u == AfterForkDone(t, c)
       case Exit(c) => t.procs[Cur(t, c)].parent.Some? && u == AfterExit(t, c)
       case Wait(c) => u == AfterWait(t, c)
       case Kill(pid) => u == AfterKill(t, pid)
       case Nice(pid, value) => u == AfterNice(t, pid, value)
       case Lock(c, id) => u == AfterLock(t, c, id)
       case Release(c, id) => u == AfterRelease(t, c, id)
  }

  /** A run: each step leads from one table of ts to the next. */
  ghost predicate Run(ts: seq<Table>, steps: seq<Step>) {
    |ts| == |steps| + 1 && forall i :: 0 <= i < |steps| ==> Next(ts[i], steps[i], ts[i + 1])
  }

  /** After userinit: init is runnable, every other slot empty, every CPU in its scheduler. */
  ghost predicate Init(t: Table) {
    && |t.procs| > 0 && |t.asked| == |t.procs| && |t.locks| == NLOCK && t.nextpid == 2
    && t.procs[INIT] == Proc(Runnable, 1, None, NoChan, false, 3, 3, -1, None)
    && (forall s :: 0 < s < |t.procs| ==> t.procs[s] == Proc(Unused, 0, None, NoChan, false, 0, 0, 0, None))
    && (forall c :: 0 <= c < |t.cpus| ==> t.cpus[c] == None)
    && (forall id :: 0 <= id < NLOCK ==> t.locks[id] == None)
    && t.exited == {} && t.reaped == [] && (forall s :: 0 <= s < |t.asked| ==> t.asked[s] == [])
  }
}
