/** What each step of proc.c does to the process table, and what may change a process from outside. */
module ProcessLaws {
  import opened Options
  import opened Processes
  import opened ProcessProofs

  /** Only slot s differs, and nothing outside the slots but `cpus`. */
  ghost predicate OnlySlot(t: Table, u: Table, s: nat) {
    && |u.procs| == |t.procs| && (forall i :: 0 <= i < |t.procs| && i != s ==> u.procs[i] == t.procs[i])
    && u.locks == t.locks && u.nextpid == t.nextpid && u.exited == t.exited && u.reaped == t.reaped && u.asked == t.asked
  }

  /** sleep records the channel, gives up the CPU and touches no one else. */
  lemma SleepLaw(t: Table, c: nat, n: nat, u: Table)
    requires Next(t, Sleep(c, n), u)
    ensures var s := Cur(t, c);
      && OnlySlot(t, u, s) && u.procs[s].state == Sleeping && u.procs[s].chan == Other(n) && u.cpus == t.cpus[c := None]
      && u.procs[s].(state := t.procs[s].state, chan := t.procs[s].chan) == t.procs[s]
  {
  }

  /** yield makes the caller runnable, gives up the CPU and touches no one else. */
  lemma YieldLaw(t: Table, c: nat, u: Table)
    requires Next(t, Yield(c), u)
    ensures var s := Cur(t, c);
      && OnlySlot(t, u, s) && u.procs[s].state == Runnable && u.cpus == t.cpus[c := None]
      && u.procs[s].(state := t.procs[s].state) == t.procs[s]
  {
  }

  /** wakeup makes exactly those asleep on the channel runnable. */
  lemma WakeupLaw(t: Table, n: nat, u: Table, s: nat)
    requires Next(t, Wakeup(n), u) && s < |t.procs|
    ensures |u.procs| == |t.procs| && u == t.(procs := u.procs)
    ensures if t.procs[s].state == Sleeping && t.procs[s].chan == Other(n)
            then u.procs[s].state == Runnable && u.procs[s].(state := Sleeping) == t.procs[s]
            else u.procs[s] == t.procs[s]
  {
  }

  /** kill marks the first process with the pid, wakes it if it sleeps on anything, and touches no one else. */
  lemma KillLaw(t: Table, pid: int, u: Table, k: nat)
    requires Next(t, Kill(pid), u) && k < |t.procs| && t.procs[k].pid == pid && forall j :: 0 <= j < k ==> t.procs[j].pid != pid
    ensures OnlySlot(t, u, k) && u.cpus == t.cpus && u.procs[k].killed
    ensures u.procs[k].state == if t.procs[k].state == Sleeping then Runnable else t.procs[k].state
    ensures u.procs[k].(killed := t.procs[k].killed, state := t.procs[k].state) == t.procs[k]
  {
    FirstIs(t.procs, HasPid(pid), k);
    hide First;
  }

  lemma FirstIs(ps: seq<Proc>, test: Test, k: nat)
    requires k <= |ps| && (k < |ps| ==> Holds(test, ps[k])) && forall j :: 0 <= j < k ==> !Holds(test, ps[j])
    ensures First(ps, test) == k
  {
    var i := First(ps, test);
    assert k < |ps| ==> Holds(test, ps[k]);
    assert i < |ps| ==> Holds(test, ps[i]);
    hide Holds;
  }

  lemma KillNobody(t: Table, pid: int, u: Table)
    requires Next(t, Kill(pid), u) && forall j :: 0 <= j < |t.procs| ==> t.procs[j].pid != pid
    ensures u == t
  {
  }

  /** The child fork makes is the forker's, runnable; no other slot but the forker's changes. */
  lemma ForkLaw(t: Table, c: nat, u: Table)
    requires Inv(t) && Next(t, ForkDone(c), u)
    ensures var s, k := Cur(t, c), t.procs[Cur(t, c)].np.value;
      && s != k && k < |t.procs| == |u.procs| && u.procs[k] == t.procs[k].(state := Runnable, parent := Some(s))
      && u.procs[s] == t.procs[s].(np := None)
      && forall i :: 0 <= i < |t.procs| && i != s && i != k ==> u.procs[i] == t.procs[i]
  {
    var s, k := ForkOf(t, c);
    hide Inv;
  }

  /** allocproc takes the lowest unused slot with the next pid and the default priority, or none. */
  lemma AllocLaw(t: Table, c: nat, u: Table, k: nat)
    requires Inv(t) && Next(t, ForkAlloc(c), u)
    requires k <= |t.procs| && (k < |t.procs| ==> t.procs[k].state == Unused)
    requires forall j :: 0 <= j < k ==> t.procs[j].state != Unused
    ensures k == |t.procs| ==> u == t
    ensures k < |t.procs| ==> var s := Cur(t, c);
      && |u.procs| == |t.procs| && u.procs[s] == t.procs[s].(np := Some(k)) && s != k && u.nextpid == t.nextpid + 1
      && u.procs[k].state == Embryo && u.procs[k].pid == t.nextpid
      && u.procs[k].nice == u.procs[k].priority == 3 && u.procs[k].original == -1
      && forall i :: 0 <= i < |t.procs| && i != s && i != k ==> u.procs[i] == t.procs[i]
  {
    CurRunning(t, c);
    hide Inv, First;
    FirstIs(t.procs, IsUnused, k);
  }

  /** wait collects its first zombie child if it has one; else it returns at once if it has no child or
      was killed; else it sleeps on its own slot. */
  lemma WaitLaw(t: Table, c: nat, u: Table)
    requires Next(t, Wait(c), u)
    ensures var s := Cur(t, c);
      && ((exists k :: 0 <= k < |t.procs| && ZombieChild(t.procs[k], s)) ==>
            exists k: nat :: k < |t.procs| && ZombieChild(t.procs[k], s) && (forall j :: 0 <= j < k ==> !ZombieChild(t.procs[j], s))
              && u == t.(procs := t.procs[k := u.procs[k]], reaped := t.reaped + [t.procs[k].pid])
              && u.procs[k] == t.procs[k].(state := Unused, pid := 0, parent := None, killed := false))
      && ((forall k :: 0 <= k < |t.procs| ==> !ZombieChild(t.procs[k], s)) ==>
            if t.procs[s].killed || (forall k :: 0 <= k < |t.procs| ==> !Child(t.procs[k], s)) then u == t
            else OnlySlot(t, u, s) && u.procs[s] == t.procs[s].(state := Sleeping, chan := OfProc(s)) && u.cpus == t.cpus[c := None])
  {
    var s := Cur(t, c);
    var k, m := First(t.procs, ZombieOf(s)), First(t.procs, ChildOf(s));
    if z :| 0 <= z < |t.procs| && ZombieChild(t.procs[z], s) {
      assert Holds(ZombieOf(s), t.procs[z]);
      assert k < |t.procs| && Holds(ZombieOf(s), t.procs[k]);
      forall j | 0 <= j < k ensures !ZombieChild(t.procs[j], s) {
        assert !Holds(ZombieOf(s), t.procs[j]);
      }
    } else {
      assert k < |t.procs| ==> Holds(ZombieOf(s), t.procs[k]);
      assert m < |t.procs| ==> Holds(ChildOf(s), t.procs[m]);
      assert m == |t.procs| ==> forall j :: 0 <= j < |t.procs| ==> !Holds(ChildOf(s), t.procs[j]);
      assert (forall j :: 0 <= j < |t.procs| ==> !Child(t.procs[j], s)) <==> m == |t.procs|;
    }
  }

  /** exit leaves a zombie, hands every child to init, and wakes the parent, and init if it now has a
      zombie child. */
  lemma ExitLaw(t: Table, c: nat, u: Table, i: nat)
    requires Inv(t) && Next(t, Exit(c), u) && i < |t.procs|
    ensures var s, p := Cur(t, c), t.procs[i];
      && |u.procs| == |t.procs| && u.cpus == t.cpus[c := None] && u.exited == t.exited + {t.procs[s].pid}
      && u.procs[i].parent == (if Child(p, s) then Some(INIT) else p.parent)
      && u.procs[i] == p.(state := u.procs[i].state, parent := u.procs[i].parent)
      && u.procs[i].state == (if i == s then Zombie
           else if p.state == Sleeping && (p.chan == OfProc(t.procs[s].parent.value) ||
                  (p.chan == OfProc(INIT) && exists k :: 0 <= k < |t.procs| && ZombieChild(t.procs[k], s))) then Runnable
           else p.state)
  {
    hide Inv, Next, First, Any, ExitAll;
    ExitIs(t, c, u);
    ExitAt(t.procs, Cur(t, c), t.procs[Cur(t, c)].parent.value, i);
  }

  lemma ExitIs(t: Table, c: nat, u: Table)
    requires Inv(t) && Next(t, Exit(c), u)
    ensures OnCpu(t, c) && t.procs[Cur(t, c)].parent.Some? && u == AfterExit(t, c)
  {
    hide Inv, First, Any, AfterExit;
  }

  lemma ExitAt(ps: seq<Proc>, s: nat, q: nat, i: nat)
    requires s < |ps| && i < |ps|
    ensures |ExitAll(ps, s, q)| == |ps|
    ensures var p, r := ps[i], ExitAll(ps, s, q)[i];
      && r.parent == (if Child(p, s) then Some(INIT) else p.parent) && r == p.(state := r.state, parent := r.parent)
      && r.state == (if i == s then Zombie
           else if p.state == Sleeping && (p.chan == OfProc(q) ||
                  (p.chan == OfProc(INIT) && exists k :: 0 <= k < |ps| && ZombieChild(ps[k], s))) then Runnable
           else p.state)
  {
    LeavesZombie(ps, s, OfProc(q));
    hide First, Any;
  }

  lemma LeavesZombie(ps: seq<Proc>, s: nat, chan: Chan)
    ensures Any(WakeAll(ps, chan), ZombieOf(s)) <==> exists k :: 0 <= k < |ps| && ZombieChild(ps[k], s)
  {
    var woken := WakeAll(ps, chan);
    var z := First(woken, ZombieOf(s));
    assert forall k :: 0 <= k < |ps| ==> (Holds(ZombieOf(s), woken[k]) <==> ZombieChild(ps[k], s));
    hide First;
  }

  /** A release by anyone but the recorded holder, or of no lock, changes nothing. */
  lemma StrangerRelease(t: Table, c: nat, id: int, u: Table)
    requires Next(t, Release(c, id), u) && !(LockId(t, id) && t.locks[id] == Some(Cur(t, c)))
    ensures u == t
  {
  }

  /** What ends the sleep of slot s: a wakeup on its channel, a kill of it, or, for a sleep in wait, the
      exit of a child, and for init also of a process that leaves it a zombie. */
  ghost predicate Rouses(t: Table, a: Step, s: nat)
    requires s < |t.procs|
  {
    match a
    case Wakeup(n) => t.procs[s].chan == Other(n)
    case Kill(pid) => t.procs[s].pid == pid && forall j :: 0 <= j < s ==> t.procs[j].pid != pid
    case Exit(c) =>
      && OnCpu(t, c)
      && ((t.procs[Cur(t, c)].parent.Some? && t.procs[s].chan == OfProc(t.procs[Cur(t, c)].parent.value)) ||
          (t.procs[s].chan == OfProc(INIT) && exists k :: 0 <= k < |t.procs| && ZombieChild(t.procs[k], Cur(t, c))))
    case _ => false
  }

  /** In any step a sleeper becomes runnable if and only if one of these happens, and otherwise sleeps on. */
  lemma SleepersWake(t: Table, a: Step, u: Table, s: nat)
    requires Inv(t) && Next(t, a, u) && s < |t.procs| && t.procs[s].state == Sleeping
    ensures |u.procs| == |t.procs| && u.procs[s].state == if Rouses(t, a, s) then Runnable else Sleeping
    ensures u.procs[s].chan == t.procs[s].chan
  {
    hide Inv, First, Any, AfterForkAlloc, AfterExit, AfterWait, AfterKill, AfterNice, AfterLock, AfterRelease, Best;
    match a
    case Dispatch(c) => hide Chosen; DispatchSpares(t, c, u, s);
    case TakeTurn(c, k) =>
    case Yield(c) => CurRunning(t, c);
    case Sleep(c, n) => CurRunning(t, c);
    case Wakeup(n) =>
    case ForkAlloc(c) => CurRunning(t, c); AllocSpares(t, c, s);
    case ForkFail(c) => var p, k := ForkOf(t, c);
    case ForkDone(c) => var p, k := ForkOf(t, c);
    case Exit(c) => CurRunning(t, c); ExitLaw(t, c, u, s); hide Next;
    case Wait(c) => CurRunning(t, c); WaitSpares(t, c, s);
    case Kill(pid) => KillsOne(t, pid, u, s);
    case Nice(pid, value) => PrioritiesOnly(t, a, u, s);
    case Lock(c, id) => PrioritiesOnly(t, a, u, s);
    case Release(c, id) => PrioritiesOnly(t, a, u, s);
  }

  /** nice, lock and release touch nothing of a process but its priority. */
  lemma PrioritiesOnly(t: Table, a: Step, u: Table, s: nat)
    requires Next(t, a, u) && (a.Nice? || a.Lock? || a.Release?) && s < |t.procs|
    ensures |u.procs| == |t.procs| && u.cpus == t.cpus
    ensures u.procs[s] == t.procs[s].(nice := u.procs[s].nice, priority := u.procs[s].priority, original := u.procs[s].original)
  {
    hide First;
  }

  lemma DispatchSpares(t: Table, c: nat, u: Table, s: nat)
    requires Next(t, Dispatch(c), u) && s < |t.procs| && t.procs[s].state != Runnable
    ensures |u.procs| == |t.procs| && u.procs[s] == t.procs[s]
  {
  }

  /** Neither allocation nor collection touches a process that has begun and is not the caller's. */
  lemma AllocSpares(t: Table, c: nat, s: nat)
    requires OnCpu(t, c) && |t.asked| == |t.procs| && s < |t.procs| && Began(t.procs[s])
    ensures |AfterForkAlloc(t, c).procs| == |t.procs|
    ensures AfterForkAlloc(t, c).procs[s].(np := t.procs[s].np) == t.procs[s]
  {
    var k := First(t.procs, IsUnused);
    assert k < |t.procs| ==> Holds(IsUnused, t.procs[k]);
    hide First;
  }

  lemma WaitSpares(t: Table, c: nat, s: nat)
    requires OnCpu(t, c) && s < |t.procs|
    ensures |AfterWait(t, c).procs| == |t.procs|
    ensures s != Cur(t, c) && !ZombieChild(t.procs[s], Cur(t, c)) ==> AfterWait(t, c).procs[s] == t.procs[s]
    ensures AfterWait(t, c).procs[s].parent == t.procs[s].parent
         || (ZombieChild(t.procs[s], Cur(t, c)) && AfterWait(t, c).procs[s].state == Unused)
  {
    var k := First(t.procs, ZombieOf(Cur(t, c)));
    assert k < |t.procs| ==> Holds(ZombieOf(Cur(t, c)), t.procs[k]);
    hide First, Any;
  }

  lemma KillsOne(t: Table, pid: int, u: Table, s: nat)
    requires Next(t, Kill(pid), u) && s < |t.procs| && t.procs[s].state == Sleeping
    ensures |u.procs| == |t.procs| && u.procs[s].state == if Rouses(t, Kill(pid), s) then Runnable else Sleeping
    ensures u.procs[s].chan == t.procs[s].chan
  {
    var k := First(t.procs, HasPid(pid));
    assert forall j :: 0 <= j < k ==> !Holds(HasPid(pid), t.procs[j]);
    assert k < |t.procs| ==> Holds(HasPid(pid), t.procs[k]);
    hide First;
  }

  /** A process keeps the parent that forked it until the parent exits, which hands it to init, or
      until it is collected. */
  lemma ParentsKept(t: Table, a: Step, u: Table, k: nat)
    requires Inv(t) && Next(t, a, u) && k < |t.procs| && Began(t.procs[k])
    ensures |u.procs| == |t.procs|
    ensures u.procs[k].parent == t.procs[k].parent
         || (a.Exit? && OnCpu(t, a.c) && t.procs[k].parent == Some(Cur(t, a.c)) && u.procs[k].parent == Some(INIT))
         || (a.Wait? && OnCpu(t, a.c) && ZombieChild(t.procs[k], Cur(t, a.c)) && u.procs[k].state == Unused)
  {
    hide Inv, First, Any, AfterForkAlloc, AfterExit, AfterWait, AfterNice, AfterLock, AfterRelease;
    match a
    case ForkAlloc(c) => AllocSpares(t, c, k);
    case ForkFail(c) => var p, i := ForkOf(t, c);
    case ForkDone(c) => var p, i := ForkOf(t, c);
    case Exit(c) => ExitLaw(t, c, u, k); hide Next;
    case Wait(c) => WaitSpares(t, c, k);
    case Nice(_, _) => PrioritiesOnly(t, a, u, k);
    case Lock(_, _) => PrioritiesOnly(t, a, u, k);
    case Release(_, _) => PrioritiesOnly(t, a, u, k);
    case _ =>
  }

  /** The priority scheduler runs a best runnable process on the CPU and touches no one else. */
  lemma DispatchLaw(t: Table, c: nat, u: Table)
    requires Next(t, Dispatch(c), u) && !Idle(t.procs)
    ensures exists k: nat ::
      && k < |t.procs| && t.procs[k].state == Runnable
      && (forall j :: 0 <= j < |t.procs| && t.procs[j].state == Runnable ==> t.procs[k].priority <= t.procs[j].priority)
      && OnlySlot(t, u, k) && u.procs[k] == t.procs[k].(state := Running, chan := NoChan) && u.cpus == t.cpus[c := Some(k)]
  {
    var k :| Chosen(t.procs, k) && u == Dispatched(t, c, k);
    assert OnlySlot(t, u, k);
  }

  /** nice sets both values of the first process with the pid, and touches no one else. */
  lemma NiceLaw(t: Table, pid: int, value: int, u: Table, k: nat)
    requires Next(t, Nice(pid, value), u) && k < |t.procs| && t.procs[k].pid == pid && t.procs[k].state != Unused
    requires forall j :: 0 <= j < k ==> t.procs[j].pid != pid || t.procs[j].state == Unused
    ensures OnlySlot(t, u, k) && u.cpus == t.cpus
    ensures u.procs[k] == if 1 <= value <= 5 then t.procs[k].(nice := value, priority := value) else t.procs[k]
  {
    FirstIs(t.procs, InUse(pid), k);
    hide First;
  }

  /** A fork that fails gives the slot back and leaves the forker as it was before. */
  lemma ForkFailLaw(t: Table, c: nat, u: Table)
    requires Inv(t) && Next(t, ForkFail(c), u)
    ensures var s, k := Cur(t, c), t.procs[Cur(t, c)].np.value;
      && s != k && k < |t.procs| == |u.procs| && u.procs[k].state == Unused && u.procs[s] == t.procs[s].(np := None)
      && forall i :: 0 <= i < |t.procs| && i != s && i != k ==> u.procs[i] == t.procs[i]
  {
    var s, k := ForkOf(t, c);
    hide Inv;
  }
}
