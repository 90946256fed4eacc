/** proc.c's loops over ptable.proc, each proved to take the matching step of Processes. */
module ProcTable {
  import opened Options
  import opened Processes

  class Kernel {
    const proc: array<Proc>
    const cpus: array<Option<nat>>
    const locks: array<Option<nat>>
    var nextpid: nat
    ghost var exited: set<nat>
    ghost var reaped: seq<nat>
    ghost var asked: seq<seq<int>>

    ghost predicate Valid()
      reads this, proc, cpus, locks
    {
      && cpus != locks && locks.Length == NLOCK && |asked| == proc.Length
      && forall j :: 0 <= j < locks.Length && locks[j].Some? ==> locks[j].value < proc.Length
    }

    ghost function T(): Table
      reads this, proc, cpus, locks
    {
      Table(proc[..], cpus[..], locks[..], nextpid, exited, reaped, asked)
    }

    /** scheduler: the loop for the runnable process of least priority value. */
    method Pick() returns (best: Option<nat>)
      ensures best.None? ==> Idle(proc[..])
      ensures best.Some? ==> Chosen(proc[..], best.value)
    {
      best := None;
      for p := 0 to proc.Length
        invariant best.None? ==> forall j :: 0 <= j < p ==> proc[j].state != Runnable
        invariant best.Some? ==> best.value < p && Best(proc[..], p, best.value)
      {
        if proc[p].state == Runnable {
          if best.None? || proc[p].priority < proc[best.value].priority {
            best := Some(p);
          }
        }
      }
    }

    /** scheduler: one turn on an idle CPU. */
    method Schedule(c: nat)
      requires Valid() && c < cpus.Length && cpus[c].None?
      modifies proc, cpus
      ensures Valid() && Next(old(T()), Dispatch(c), T())
    {
      var best := Pick();
      if best.Some? {
        var p := best.value;
        cpus[c] := Some(p);
        proc[p] := proc[p].(state := Running, chan := NoChan);
        assert T() == Dispatched(old(T()), c, p);
      }
    }

    /** The round-robin scheduler's loop, from slot `from` to the next process it runs; the table's length if none is left. */
    method TakeTurn(c: nat, from: nat) returns (k: nat)
      requires Valid() && c < cpus.Length && cpus[c].None? && from <= proc.Length
      modifies proc, cpus
      ensures Valid() && from <= k <= proc.Length
      ensures forall j :: from <= j < k ==> old(proc[j]).state != Runnable
      ensures if k < proc.Length then Next(old(T()), Step.TakeTurn(c, k), T()) else T() == old(T())
    {
      k := from;
      while k < proc.Length && proc[k].state != Runnable
        invariant from <= k <= proc.Length
        invariant forall j :: from <= j < k ==> proc[j].state != Runnable
      {
        k := k + 1;
      }
      if k < proc.Length {
        cpus[c] := Some(k);
        proc[k] := proc[k].(state := Running, chan := NoChan);
        assert T() == Dispatched(old(T()), c, k);
      }
    }

    /** wakeup1 */
    method Wakeup1(chan: Chan)
      modifies proc
      ensures proc[..] == WakeAll(old(proc[..]), chan)
    {
      for p := 0 to proc.Length
        invariant forall j :: 0 <= j < p ==> proc[j] == Woken(old(proc[j]), chan)
        invariant forall j :: p <= j < proc.Length ==> proc[j] == old(proc[j])
      {
        if proc[p].state == Sleeping && proc[p].chan == chan {
          proc[p] := proc[p].(state := Runnable);
        }
      }
    }

    /** The common search of allocproc, kill, nice and wait. */
    method Find(test: Test) returns (k: nat)
      ensures k == First(proc[..], test)
    {
      k := 0;
      while k < proc.Length
        invariant 0 <= k <= proc.Length
        invariant First(proc[..], test) == First(proc[..], test, k)
      {
        if Holds(test, proc[k]) {
          return;
        }
        k := k + 1;
      }
    }

    /** yield */
    method Yield(c: nat)
      requires Valid() && OnCpu(T(), c)
      modifies proc, cpus
      ensures Valid() && Next(old(T()), Step.Yield(c), T())
    {
      var s := cpus[c].value;
      proc[s] := proc[s].(state := Runnable);
      cpus[c] := None;
    }

    /** sleep on a kernel address */
    method Sleep(c: nat, address: nat)
      requires Valid() && OnCpu(T(), c)
      modifies proc, cpus
      ensures Valid() && Next(old(T()), Step.Sleep(c, address), T())
    {
      var s := cpus[c].value;
      proc[s] := proc[s].(chan := Other(address), state := Sleeping);
      cpus[c] := None;
    }

    /** allocproc, called by fork: the child stays in the caller's np until fork ends. */
    method AllocProc(c: nat) returns (np: Option<nat>)
      requires Valid() && OnCpu(T(), c) && proc[cpus[c].value].np.None?
      modifies this, proc
      ensures Valid() && Next(old(T()), ForkAlloc(c), T())
    {
      var s := cpus[c].value;
      var k := Find(IsUnused);
      if k == proc.Length {
        return None;
      }
      proc[k] := proc[k].(state := Embryo, pid := nextpid, nice := 3, priority := 3, original := -1, np := None);
      nextpid := nextpid + 1;
      proc[s] := proc[s].(np := Some(k));
      asked := asked[k := []];
      return Some(k);
    }

    /** fork, when copyuvm fails */
    method AbandonFork(c: nat)
      requires Valid() && OnCpu(T(), c) && proc[cpus[c].value].np.Some? && proc[cpus[c].value].np.value < proc.Length
      modifies proc
      ensures Valid() && Next(old(T()), ForkFail(c), T())
    {
      var s := cpus[c].value;
      var k := proc[s].np.value;
      proc[k] := proc[k].(state := Unused);
      proc[s] := proc[s].(np := None);
    }

    /** fork, once the child is complete */
    method FinishFork(c: nat) returns (pid: nat)
      requires Valid() && OnCpu(T(), c) && proc[cpus[c].value].np.Some? && proc[cpus[c].value].np.value < proc.Length
      modifies proc
      ensures Valid() && Next(old(T()), ForkDone(c), T()) && pid == old(proc[proc[cpus[c].value].np.value].pid)
    {
      var s := cpus[c].value;
      var k := proc[s].np.value;
      pid := proc[k].pid;
      proc[k] := proc[k].(state := Runnable, parent := Some(s));
      proc[s] := proc[s].(np := None);
    }

    /** exit's loop: children go to init, woken for each zombie among them. */
    method PassChildren(s: nat)
      modifies proc
      ensures proc[..] == AdoptAll(old(proc[..]), s)
    {
      ghost var ps := proc[..];
      ghost var z := First(ps, ZombieOf(s));
      for p := 0 to proc.Length
        invariant forall j :: 0 <= j < p ==> proc[j] == Adopted(ps[j], s, z < p)
        invariant forall j :: p <= j < proc.Length ==> proc[j] == if z < p then Woken(ps[j], OfProc(INIT)) else ps[j]
      {
        assert z < p ==> proc[p] == Woken(ps[p], OfProc(INIT));
        assert ZombieChild(ps[p], s) == Holds(ZombieOf(s), ps[p]);
        if proc[p].parent == Some(s) {
          proc[p] := proc[p].(parent := Some(INIT));
          if proc[p].state == Zombie {
            ghost var mid := proc[..];
            Wakeup1(OfProc(INIT));
            assert forall j :: 0 <= j < |mid| ==> proc[..][j] == Woken(mid[j], OfProc(INIT));
            assert z <= p;
          }
        }
      }
    }

    /** exit, from the point where ptable.lock is taken */
    method Exit(c: nat)
      requires Valid() && Enabled(T(), Step.Exit(c)) && proc[cpus[c].value].parent.Some?
      modifies this`exited, proc, cpus
      ensures Valid() && Next(old(T()), Step.Exit(c), T())
    {
      var s := cpus[c].value;
      Wakeup1(OfProc(proc[s].parent.value));
      PassChildren(s);
      exited := exited + {proc[s].pid};
      proc[s] := proc[s].(state := Zombie);
      cpus[c] := None;
    }

    /** wait: one pass of its loop. `slept` means the loop goes round again after a wakeup. */
    method Wait(c: nat) returns (pid: int, slept: bool)
      requires Valid() && Enabled(T(), Step.Wait(c))
      modifies this`reaped, proc, cpus
      ensures Valid() && Next(old(T()), Step.Wait(c), T())
      ensures slept <==> T().cpus != old(T().cpus)
      ensures !slept && pid == -1 <==> T() == old(T())
      ensures !slept && pid != -1 ==> reaped == old(reaped) + [pid]
    {
      ghost var t := T();
      var s := cpus[c].value;
      var havekids := false;
      for p := 0 to proc.Length
        invariant T() == t
        invariant forall j :: 0 <= j < p ==> !Holds(ZombieOf(s), proc[j])
        invariant havekids <==> exists j :: 0 <= j < p && Holds(ChildOf(s), proc[j])
      {
        if proc[p].parent == Some(s) {
          havekids := true;
          assert Holds(ChildOf(s), proc[p]);
          if proc[p].state == Zombie {
            assert Holds(ZombieOf(s), t.procs[p]);
            pid := proc[p].pid;
            proc[p] := proc[p].(state := Unused, pid := 0, parent := None, killed := false);
            reaped := reaped + [pid];
            assert |reaped| != |t.reaped|;
            return pid, false;
          }
        }
      }
      assert Any(t.procs, ChildOf(s)) <==> havekids;
      if !havekids || proc[s].killed {
        return -1, false;
      }
      proc[s] := proc[s].(chan := OfProc(s), state := Sleeping);
      cpus[c] := None;
      assert T().cpus[c] != t.cpus[c];
      return -1, true;
    }

    /** kill */
    method Kill(pid: int) returns (r: int)
      requires Valid()
      modifies proc
      ensures Valid() && Next(old(T()), Step.Kill(pid), T())
      ensures r == if Any(old(proc[..]), HasPid(pid)) then 0 else -1
    {
      var k := Find(HasPid(pid));
      if k == proc.Length {
        return -1;
      }
      proc[k] := proc[k].(killed := true);
      if proc[k].state == Sleeping {
        proc[k] := proc[k].(state := Runnable);
      }
      return 0;
    }

    /** sys_nice */
    method Nice(pid: int, value: int) returns (r: int)
      requires Valid()
      modifies proc
      ensures Valid() && Next(old(T()), Step.Nice(pid, value), T())
      ensures r == (if 1 <= value <= 5 && Any(old(proc[..]), InUse(pid))
                    then old(proc[..])[First(old(proc[..]), InUse(pid))].nice else -1)
    {
      if value < 1 || value > 5 {
        return -1;
      }
      var k := Find(InUse(pid));
      if k == proc.Length {
        return -1;
      }
      r := proc[k].nice;
      proc[k] := proc[k].(nice := value, priority := value);
    }

    /** sys_lock */
    method Lock(c: nat, id: int) returns (r: int)
      requires Valid() && OnCpu(T(), c)
      modifies this`asked, proc, locks
      ensures Valid() && Next(old(T()), Step.Lock(c, id), T()) && r == if 0 <= id < NLOCK then 0 else -1
    {
      if id < 0 || id >= NLOCK {
        return -1;
      }
      var s := cpus[c].value;
      if locks[id].None? {
        locks[id] := Some(s);
      } else {
        var h := locks[id].value;
        ghost var asks := proc[s].priority;
        if proc[s].priority < proc[h].priority {
          if proc[h].original == -1 {
            proc[h] := proc[h].(original := proc[h].priority);
          }
          proc[h] := proc[h].(priority := proc[s].priority);
        }
        asked := asked[h := asked[h] + [asks]];
      }
      return 0;
    }

    /** sys_release */
    method Release(c: nat, id: int) returns (r: int)
      requires Valid() && OnCpu(T(), c)
      modifies this`asked, proc, locks
      ensures Valid() && Next(old(T()), Step.Release(c, id), T()) && r == if 0 <= id < NLOCK then 0 else -1
    {
      if id < 0 || id >= NLOCK {
        return -1;
      }
      var s := cpus[c].value;
      if locks[id] == Some(s) {
        locks[id] := None;
        asked := asked[s := []];
        if proc[s].original != -1 {
          proc[s] := proc[s].(priority := proc[s].original);
          proc[s] := proc[s].(original := -1);
        }
      }
      return 0;
    }
  }
}
