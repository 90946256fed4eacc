/** What every interleaving of proc.c's steps keeps. */
module ProcessProofs {
  import opened Sequences
  import opened Options
  import opened Processes

  /** The processes marked RUNNING are exactly those current on some CPU, each on one. */
  ghost predicate Cpus(ps: seq<Proc>, cpus: seq<Option<nat>>) {
    && (forall c :: 0 <= c < |cpus| && cpus[c].Some? ==> cpus[c].value < |ps| && ps[cpus[c].value].state == Running)
    && (forall c, d :: 0 <= c < d < |cpus| && cpus[c].Some? ==> cpus[c] != cpus[d])
    && (forall s :: 0 <= s < |ps| && ps[s].state == Running ==> Some(s) in cpus)
  }

  ghost predicate ParentOk(ps: seq<Proc>, s: nat)
    requires s < |ps|
  {
    var p := ps[s];
    if s == INIT || !Began(p) then p.parent == None
    else p.parent.Some? && p.parent.value < |ps| && p.parent.value != s && Alive(ps[p.parent.value])
  }

  /** init never dies, and everything else that has begun, zombies included, has a living parent. */
  ghost predicate Family(ps: seq<Proc>) {
    && |ps| > INIT && Alive(ps[INIT])
    && forall s :: 0 <= s < |ps| ==> ParentOk(ps, s)
  }

  predicate Waiting(p: Proc, s: nat) {
    p.state == Sleeping && p.chan == OfProc(s)
  }

  ghost predicate HasChild(ps: seq<Proc>, s: nat) {
    exists i :: 0 <= i < |ps| && Child(ps[i], s)
  }

  ghost predicate NoZombie(ps: seq<Proc>, s: nat) {
    forall i :: 0 <= i < |ps| ==> !ZombieChild(ps[i], s)
  }

  /** Whoever sleeps in wait() has a child and no zombie child: no exit was missed. */
  ghost predicate WaitOk(ps: seq<Proc>) {
    forall s :: 0 <= s < |ps| && ps[s].state == Sleeping && ps[s].chan.OfProc? ==>
      ps[s].chan == OfProc(s) && HasChild(ps, s) && NoZombie(ps, s)
  }

  ghost predicate Pids(ps: seq<Proc>, nextpid: nat) {
    && (forall s :: 0 <= s < |ps| ==> ps[s].pid < nextpid && (ps[s].state != Unused ==> ps[s].pid > 0))
    && (forall s, r :: 0 <= s < r < |ps| && ps[s].pid > 0 ==> ps[s].pid != ps[r].pid)
  }

  ghost predicate Raised(ps: seq<Proc>, e: nat) {
    exists s :: 0 <= s < |ps| && ps[s].np == Some(e)
  }

  ghost predicate ForkOk(ps: seq<Proc>, s: nat)
    requires s < |ps|
  {
    ps[s].np.Some? ==> Alive(ps[s]) && ps[s].np.value < |ps| && ps[ps[s].np.value].state == Embryo
  }

  /** A child being set up belongs to one running fork(), and to one only. */
  ghost predicate Forks(ps: seq<Proc>) {
    && (forall s {:trigger ForkOk(ps, s)} :: 0 <= s < |ps| ==> ForkOk(ps, s))
    && (forall s, r :: 0 <= s < r < |ps| && ps[s].np.Some? ==> ps[s].np != ps[r].np)
    && (forall e :: 0 <= e < |ps| && ps[e].state == Embryo ==> Raised(ps, e))
  }

  ghost predicate ZombiePid(ps: seq<Proc>, pid: nat) {
    exists s :: 0 <= s < |ps| && ps[s].state == Zombie && ps[s].pid == pid
  }

  /** Exited and not yet collected is the same as being a zombie; nothing is collected twice. */
  ghost predicate History(ps: seq<Proc>, exited: set<nat>, reaped: seq<nat>, nextpid: nat) {
    && (forall pid :: pid in exited <==> pid in reaped || ZombiePid(ps, pid))
    && (forall pid :: pid in reaped ==> !ZombiePid(ps, pid))
    && Distinct(reaped)
    && (forall s :: 0 <= s < |ps| && (Alive(ps[s]) || ps[s].state == Embryo) ==> ps[s].pid !in exited)
    && (forall pid :: pid in exited ==> pid < nextpid)
  }

  ghost predicate Inv(t: Table) {
    && Cpus(t.procs, t.cpus)
    && Family(t.procs)
    && WaitOk(t.procs)
    && Pids(t.procs, t.nextpid)
    && Forks(t.procs)
    && History(t.procs, t.exited, t.reaped, t.nextpid)
    && |t.asked| == |t.procs|
  }

  /** A change of slot that moves the process only between sleeping, runnable and running. */
  predicate Quiet(p: Proc, q: Proc) {
    && q.parent == p.parent && q.pid == p.pid && q.np == p.np
    && Alive(p) == Alive(q)
    && (p.state == Zombie) == (q.state == Zombie) && (p.state == Embryo) == (q.state == Embryo)
  }

  /** What family and waiting depend on. */
  predicate Kin(p: Proc, q: Proc) {
    q.parent == p.parent && Alive(p) == Alive(q) && (p.state == Zombie) == (q.state == Zombie)
  }

  predicate NoNewWait(p: Proc, q: Proc) {
    q.state == Sleeping && q.chan.OfProc? ==> p.state == Sleeping && p.chan == q.chan
  }

  ghost predicate AllQuiet(ps: seq<Proc>, qs: seq<Proc>) {
    |ps| == |qs| && forall s :: 0 <= s < |ps| ==> Quiet(ps[s], qs[s])
  }

  ghost predicate AllKin(ps: seq<Proc>, qs: seq<Proc>) {
    |ps| == |qs| && forall s :: 0 <= s < |ps| ==> Kin(ps[s], qs[s])
  }

  lemma KinFamily(ps: seq<Proc>, qs: seq<Proc>)
    requires Family(ps) && AllKin(ps, qs)
    ensures Family(qs)
  {
    assert Kin(ps[INIT], qs[INIT]);
    forall s | 0 <= s < |qs| ensures ParentOk(qs, s) {
      assert ParentOk(ps, s) && Kin(ps[s], qs[s]);
      assert Began(ps[s]) && s != INIT ==> Kin(ps[ps[s].parent.value], qs[ps[s].parent.value]);
    }
  }

  lemma QuietPids(ps: seq<Proc>, qs: seq<Proc>, nextpid: nat)
    requires Pids(ps, nextpid) && AllQuiet(ps, qs)
    ensures Pids(qs, nextpid)
  {
    assert forall s :: 0 <= s < |ps| ==> Quiet(ps[s], qs[s]);
  }

  lemma QuietForks(ps: seq<Proc>, qs: seq<Proc>)
    requires Forks(ps) && AllQuiet(ps, qs)
    ensures Forks(qs)
  {
    assert forall s :: 0 <= s < |ps| ==> Quiet(ps[s], qs[s]);
    forall s | 0 <= s < |qs| ensures ForkOk(qs, s) {
      assert ForkOk(ps, s);
    }
    forall e | 0 <= e < |qs| && qs[e].state == Embryo ensures Raised(qs, e) {
      var s :| 0 <= s < |ps| && ps[s].np == Some(e);
      assert qs[s].np == Some(e);
    }
  }

  lemma KinWait(ps: seq<Proc>, qs: seq<Proc>)
    requires WaitOk(ps) && AllKin(ps, qs)
    requires forall s :: 0 <= s < |ps| ==> NoNewWait(ps[s], qs[s])
    ensures WaitOk(qs)
  {
    forall s | 0 <= s < |qs| && qs[s].state == Sleeping && qs[s].chan.OfProc?
      ensures qs[s].chan == OfProc(s) && HasChild(qs, s) && NoZombie(qs, s)
    {
      assert NoNewWait(ps[s], qs[s]);
      var i :| 0 <= i < |ps| && Child(ps[i], s);
      assert Kin(ps[i], qs[i]);
      forall j | 0 <= j < |qs| ensures !ZombieChild(qs[j], s) {
        assert Kin(ps[j], qs[j]);
      }
    }
  }

  /** Zombies unchanged, nobody else carrying an exited pid. */
  lemma ZombieHistory(ps: seq<Proc>, qs: seq<Proc>, exited: set<nat>, reaped: seq<nat>, n: nat, m: nat)
    requires History(ps, exited, reaped, n) && |ps| == |qs| && n <= m
    requires forall s :: 0 <= s < |ps| ==>
      (ps[s].state == Zombie) == (qs[s].state == Zombie) && (ps[s].state == Zombie ==> ps[s].pid == qs[s].pid)
    requires forall s :: 0 <= s < |ps| && (Alive(qs[s]) || qs[s].state == Embryo) ==> qs[s].pid !in exited
    ensures History(qs, exited, reaped, m)
  {
    forall pid: nat ensures ZombiePid(ps, pid) == ZombiePid(qs, pid) {
      if ZombiePid(ps, pid) {
        var s :| 0 <= s < |ps| && ps[s].state == Zombie && ps[s].pid == pid;
        assert qs[s].state == Zombie && qs[s].pid == pid;
      }
      if ZombiePid(qs, pid) {
        var s :| 0 <= s < |qs| && qs[s].state == Zombie && qs[s].pid == pid;
        assert ps[s].state == Zombie && ps[s].pid == pid;
      }
    }
    hide ZombiePid;
  }

  /** Cpus only looks at who is running. */
  lemma SameRunning(ps: seq<Proc>, qs: seq<Proc>, cpus: seq<Option<nat>>)
    requires Cpus(ps, cpus) && |ps| == |qs|
    requires forall s :: 0 <= s < |ps| ==> (ps[s].state == Running) == (qs[s].state == Running)
    ensures Cpus(qs, cpus)
  {
  }

  lemma StopRunning(ps: seq<Proc>, qs: seq<Proc>, cpus: seq<Option<nat>>, c: nat)
    requires Cpus(ps, cpus) && |ps| == |qs| && c < |cpus| && cpus[c].Some? && cpus[c].value < |ps|
    requires forall s :: 0 <= s < |ps| && s != cpus[c].value ==> (ps[s].state == Running) == (qs[s].state == Running)
    requires qs[cpus[c].value].state != Running
    ensures Cpus(qs, cpus[c := None])
  {
    var after := cpus[c := None];
    forall s | 0 <= s < |qs| && qs[s].state == Running ensures Some(s) in after {
      var d :| 0 <= d < |cpus| && cpus[d] == Some(s);
      assert after[d] == Some(s);
    }
  }

  lemma StartRunning(ps: seq<Proc>, cpus: seq<Option<nat>>, c: nat, k: nat, p: Proc)
    requires Cpus(ps, cpus) && c < |cpus| && cpus[c].None? && k < |ps| && ps[k].state != Running && p.state == Running
    ensures Cpus(ps[k := p], cpus[c := Some(k)])
  {
    var after, qs := cpus[c := Some(k)], ps[k := p];
    forall s | 0 <= s < |qs| && qs[s].state == Running ensures Some(s) in after {
      if s == k {
        assert after[c] == Some(k);
      } else {
        var d :| 0 <= d < |cpus| && cpus[d] == Some(s);
        assert after[d] == Some(s);
      }
    }
  }

  lemma QuietHistory(t: Table, u: Table)
    requires History(t.procs, t.exited, t.reaped, t.nextpid) && AllQuiet(t.procs, u.procs)
    requires u.nextpid == t.nextpid && u.exited == t.exited && u.reaped == t.reaped
    ensures History(u.procs, u.exited, u.reaped, u.nextpid)
  {
    assert forall s :: 0 <= s < |t.procs| ==> Quiet(t.procs[s], u.procs[s]);
    ZombieHistory(t.procs, u.procs, t.exited, t.reaped, t.nextpid, u.nextpid);
  }

  /** Steps that move processes only between sleeping, runnable and running. */
  lemma QuietInv(t: Table, u: Table)
    requires Inv(t) && AllQuiet(t.procs, u.procs) && Cpus(u.procs, u.cpus) && WaitOk(u.procs)
    requires u.nextpid == t.nextpid && u.exited == t.exited && u.reaped == t.reaped && |u.asked| == |t.asked|
    ensures Inv(u)
  {
    hide Cpus, Family, WaitOk, Pids, Forks, History;
    KinFamily(t.procs, u.procs);
    QuietPids(t.procs, u.procs, t.nextpid);
    QuietForks(t.procs, u.procs);
    QuietHistory(t, u);
  }

  lemma DispatchInv(t: Table, c: nat, k: nat)
    requires Inv(t) && c < |t.cpus| && t.cpus[c].None? && k < |t.procs| && t.procs[k].state == Runnable
    ensures Inv(Dispatched(t, c, k))
  {
    hide Cpus, Family, WaitOk, Pids, Forks, History;
    var u := Dispatched(t, c, k);
    StartRunning(t.procs, t.cpus, c, k, u.procs[k]);
    KinWait(t.procs, u.procs);
    QuietInv(t, u);
  }

  /** yield() and sleep() on anything but a process. */
  lemma LeaveInv(t: Table, c: nat, p: Proc)
    requires Inv(t) && OnCpu(t, c) && Quiet(t.procs[Cur(t, c)], p) && p.state != Running
    requires p.state == Sleeping ==> !p.chan.OfProc?
    ensures Inv(Leave(t, c, p))
  {
    hide Cpus, Family, WaitOk, Pids, Forks, History;
    var u := Leave(t, c, p);
    StopRunning(t.procs, u.procs, t.cpus, c);
    KinWait(t.procs, u.procs);
    QuietInv(t, u);
  }

  lemma WakeInv(t: Table, chan: Chan)
    requires Inv(t)
    ensures Inv(t.(procs := WakeAll(t.procs, chan)))
  {
    hide Cpus, Family, WaitOk, Pids, Forks, History;
    var u := t.(procs := WakeAll(t.procs, chan));
    SameRunning(t.procs, u.procs, t.cpus);
    KinWait(t.procs, u.procs);
    QuietInv(t, u);
  }

  /** kill, nice, lock and release touch one slot and nothing the invariant looks at. */
  lemma PutInv(t: Table, k: nat, p: Proc, locks: seq<Option<nat>>, asked: seq<seq<int>>)
    requires Inv(t) && k < |t.procs| && Quiet(t.procs[k], p) && NoNewWait(t.procs[k], p)
    requires (t.procs[k].state == Running) == (p.state == Running) && |asked| == |t.asked|
    ensures Inv(Put(t, k, p).(locks := locks, asked := asked))
  {
    hide Cpus, Family, WaitOk, Pids, Forks, History;
    var u := Put(t, k, p).(locks := locks, asked := asked);
    SameRunning(t.procs, u.procs, t.cpus);
    KinWait(t.procs, u.procs);
    QuietInv(t, u);
  }

  /** wait() goes to sleep only after a full scan found a child and no zombie child. */
  lemma SleepInWait(ps: seq<Proc>, s: nat, p: Proc)
    requires WaitOk(ps) && s < |ps| && Quiet(ps[s], p) && p.chan == OfProc(s)
    requires !Any(ps, ZombieOf(s)) && Any(ps, ChildOf(s))
    ensures WaitOk(ps[s := p])
  {
    var qs := ps[s := p];
    var i := First(ps, ChildOf(s));
    assert Holds(ChildOf(s), ps[i]);
    assert forall j :: 0 <= j < |ps| ==> !Holds(ZombieOf(s), ps[j]);
    hide First;
    forall r | 0 <= r < |qs| && qs[r].state == Sleeping && qs[r].chan.OfProc?
      ensures qs[r].chan == OfProc(r) && HasChild(qs, r) && NoZombie(qs, r)
    {
      var k :| 0 <= k < |ps| && Child(ps[k], r);
      assert Child(qs[k], r);
    }
  }

  lemma WaitSleepInv(t: Table, c: nat)
    requires Inv(t) && OnCpu(t, c) && t.procs[Cur(t, c)].state == Running
    requires !Any(t.procs, ZombieOf(Cur(t, c))) && Any(t.procs, ChildOf(Cur(t, c)))
    ensures Inv(Leave(t, c, t.procs[Cur(t, c)].(chan := OfProc(Cur(t, c)), state := Sleeping)))
  {
    hide Cpus, Family, WaitOk, Pids, Forks, History;
    var s := Cur(t, c);
    var p := t.procs[s].(chan := OfProc(s), state := Sleeping);
    var u := Leave(t, c, p);
    StopRunning(t.procs, u.procs, t.cpus, c);
    SleepInWait(t.procs, s, p);
    QuietInv(t, u);
  }

  /** allocproc: a fresh pid in an unused slot, held by the forking process s. */
  lemma AllocForks(ps: seq<Proc>, s: nat, k: nat, pid: nat)
    requires Forks(ps) && s < |ps| && k < |ps| && s != k && Alive(ps[s]) && ps[s].np.None? && ps[k].state == Unused
    ensures Forks(ps[k := Fresh(ps[k], pid)][s := ps[s].(np := Some(k))])
  {
    var qs := ps[k := Fresh(ps[k], pid)][s := ps[s].(np := Some(k))];
    assert ForkOk(ps, k);
    forall r | 0 <= r < |ps| ensures ps[r].np != Some(k) {
      assert ForkOk(ps, r);
    }
    forall r | 0 <= r < |qs| ensures ForkOk(qs, r) {
      assert ForkOk(ps, r);
    }
    forall e | 0 <= e < |qs| && qs[e].state == Embryo ensures Raised(qs, e) {
      if e == k {
        assert qs[s].np == Some(e);
      } else {
        var r :| 0 <= r < |ps| && ps[r].np == Some(e);
        assert qs[r].np == Some(e);
      }
    }
  }

  lemma AllocPids(ps: seq<Proc>, s: nat, k: nat, pid: nat)
    requires Pids(ps, pid) && s < |ps| && k < |ps| && s != k && pid > 0
    ensures Pids(ps[k := Fresh(ps[k], pid)][s := ps[s].(np := Some(k))], pid + 1)
  {
  }

  lemma AllocHistory(ps: seq<Proc>, s: nat, k: nat, pid: nat, exited: set<nat>, reaped: seq<nat>)
    requires History(ps, exited, reaped, pid) && s < |ps| && k < |ps| && s != k && ps[k].state == Unused
    ensures History(ps[k := Fresh(ps[k], pid)][s := ps[s].(np := Some(k))], exited, reaped, pid + 1)
  {
    ZombieHistory(ps, ps[k := Fresh(ps[k], pid)][s := ps[s].(np := Some(k))], exited, reaped, pid, pid + 1);
  }

  lemma InUsePid(ps: seq<Proc>, s: nat, nextpid: nat)
    requires Pids(ps, nextpid) && s < |ps| && ps[s].state != Unused
    ensures 0 < ps[s].pid < nextpid
  {
  }

  lemma ForkAllocInv(t: Table, c: nat)
    requires Inv(t) && OnCpu(t, c) && t.procs[Cur(t, c)].np.None? && t.procs[Cur(t, c)].state == Running
    ensures Inv(AfterForkAlloc(t, c))
  {
    hide First, Cpus, Family, WaitOk, Pids, Forks, History;
    var s, k := Cur(t, c), First(t.procs, IsUnused);
    if k < |t.procs| {
      assert Holds(IsUnused, t.procs[k]);
      var u := AfterForkAlloc(t, c);
      InUsePid(t.procs, s, t.nextpid);
      AllocForks(t.procs, s, k, t.nextpid);
      AllocPids(t.procs, s, k, t.nextpid);
      AllocHistory(t.procs, s, k, t.nextpid, t.exited, t.reaped);
      SameRunning(t.procs, u.procs, t.cpus);
      KinFamily(t.procs, u.procs);
      KinWait(t.procs, u.procs);
    }
  }

  lemma FailForks(ps: seq<Proc>, s: nat, k: nat)
    requires Forks(ps) && s < |ps| && k < |ps| && s != k && ps[s].np == Some(k)
    ensures Forks(ps[k := ps[k].(state := Unused)][s := ps[s].(np := None)])
  {
    var qs := ps[k := ps[k].(state := Unused)][s := ps[s].(np := None)];
    assert ForkOk(ps, s) && ForkOk(ps, k);
    EndFork(ps, qs, s, k);
  }

  lemma DoneForks(ps: seq<Proc>, s: nat, k: nat)
    requires Forks(ps) && s < |ps| && k < |ps| && s != k && ps[s].np == Some(k)
    ensures Forks(ps[k := ps[k].(state := Runnable, parent := Some(s))][s := ps[s].(np := None)])
  {
    var qs := ps[k := ps[k].(state := Runnable, parent := Some(s))][s := ps[s].(np := None)];
    assert ForkOk(ps, s) && ForkOk(ps, k);
    EndFork(ps, qs, s, k);
  }

  /** However fork() ends, no other fork's child is disturbed. */
  lemma EndFork(ps: seq<Proc>, qs: seq<Proc>, s: nat, k: nat)
    requires Forks(ps) && s < |ps| && k < |ps| && s != k && ps[s].np == Some(k)
    requires |qs| == |ps| && qs[s].np.None? && qs[k].np == ps[k].np && qs[k].state != Embryo
    requires forall r :: 0 <= r < |ps| && r != s && r != k ==> qs[r] == ps[r]
    requires Alive(qs[s]) && (Alive(ps[k]) ==> Alive(qs[k]))
    ensures Forks(qs)
  {
    assert ForkOk(ps, s) && ForkOk(ps, k);
    assert ps[k].state == Embryo && ps[k].np.None?;
    forall r | 0 <= r < |qs| ensures ForkOk(qs, r) {
      assert ForkOk(ps, r);
    }
    forall e | 0 <= e < |qs| && qs[e].state == Embryo ensures Raised(qs, e) {
      var r :| 0 <= r < |ps| && ps[r].np == Some(e);
      assert qs[r].np == Some(e);
    }
  }

  lemma ForkOf(t: Table, c: nat) returns (s: nat, k: nat)
    requires Inv(t) && OnCpu(t, c) && t.procs[Cur(t, c)].np.Some?
    ensures s == Cur(t, c) && t.procs[s].state == Running && k < |t.procs| && k != s && t.procs[s].np == Some(k)
    ensures t.procs[k].state == Embryo && t.procs[k].parent.None? && t.procs[k].pid !in t.exited && k != INIT
  {
    s := Cur(t, c);
    assert ForkOk(t.procs, s);
    k := t.procs[s].np.value;
    assert ParentOk(t.procs, k);
  }

  lemma ForkFailInv(t: Table, c: nat)
    requires Inv(t) && OnCpu(t, c) && t.procs[Cur(t, c)].np.Some?
    ensures t.procs[Cur(t, c)].np.value < |t.procs| && Inv(AfterForkFail(t, c))
  {
    hide Cpus, Family, WaitOk, Pids, Forks, History;
    var s, k := ForkOf(t, c);
    var u := AfterForkFail(t, c);
    FailForks(t.procs, s, k);
    FewerPids(t.procs, u.procs, t.nextpid);
    FailHistory(t.procs, s, k, t.exited, t.reaped, t.nextpid);
    SameRunning(t.procs, u.procs, t.cpus);
    KinFamily(t.procs, u.procs);
    KinWait(t.procs, u.procs);
  }

  lemma FewerPids(ps: seq<Proc>, qs: seq<Proc>, nextpid: nat)
    requires Pids(ps, nextpid) && |ps| == |qs|
    requires forall s :: 0 <= s < |ps| ==>
      (qs[s].pid == ps[s].pid && (qs[s].state != Unused ==> ps[s].state != Unused)) || (qs[s].pid == 0 && qs[s].state == Unused)
    ensures Pids(qs, nextpid)
  {
    assert forall s :: 0 <= s < |ps| ==> ps[s].pid < nextpid;
  }

  lemma FailHistory(ps: seq<Proc>, s: nat, k: nat, exited: set<nat>, reaped: seq<nat>, nextpid: nat)
    requires History(ps, exited, reaped, nextpid) && s < |ps| && k < |ps| && s != k && ps[k].state == Embryo
    ensures History(ps[k := ps[k].(state := Unused)][s := ps[s].(np := None)], exited, reaped, nextpid)
  {
    ZombieHistory(ps, ps[k := ps[k].(state := Unused)][s := ps[s].(np := None)], exited, reaped, nextpid, nextpid);
  }

  lemma DoneHistory(ps: seq<Proc>, s: nat, k: nat, exited: set<nat>, reaped: seq<nat>, nextpid: nat)
    requires History(ps, exited, reaped, nextpid) && s < |ps| && k < |ps| && s != k && ps[k].state == Embryo
    ensures History(ps[k := ps[k].(state := Runnable, parent := Some(s))][s := ps[s].(np := None)], exited, reaped, nextpid)
  {
    ZombieHistory(ps, ps[k := ps[k].(state := Runnable, parent := Some(s))][s := ps[s].(np := None)],
      exited, reaped, nextpid, nextpid);
  }

  lemma DoneFamily(ps: seq<Proc>, s: nat, k: nat)
    requires Family(ps) && s < |ps| && k < |ps| && s != k && ps[s].state == Running && ps[k].state == Embryo && k != INIT
    ensures Family(ps[k := ps[k].(state := Runnable, parent := Some(s))][s := ps[s].(np := None)])
  {
    var qs := ps[k := ps[k].(state := Runnable, parent := Some(s))][s := ps[s].(np := None)];
    forall r | 0 <= r < |qs| ensures ParentOk(qs, r) {
      assert ParentOk(ps, r);
    }
  }

  lemma DoneWait(ps: seq<Proc>, s: nat, k: nat)
    requires WaitOk(ps) && s < |ps| && k < |ps| && s != k && ps[s].state == Running && ps[k].state == Embryo && ps[k].parent.None?
    ensures WaitOk(ps[k := ps[k].(state := Runnable, parent := Some(s))][s := ps[s].(np := None)])
  {
    var qs := ps[k := ps[k].(state := Runnable, parent := Some(s))][s := ps[s].(np := None)];
    forall r | 0 <= r < |qs| && qs[r].state == Sleeping && qs[r].chan.OfProc?
      ensures qs[r].chan == OfProc(r) && HasChild(qs, r) && NoZombie(qs, r)
    {
      var i :| 0 <= i < |ps| && Child(ps[i], r);
      assert Child(qs[i], r);
    }
  }

  lemma ForkDoneInv(t: Table, c: nat)
    requires Inv(t) && OnCpu(t, c) && t.procs[Cur(t, c)].np.Some?
    ensures t.procs[Cur(t, c)].np.value < |t.procs| && Inv(AfterForkDone(t, c))
  {
    hide Cpus, Family, WaitOk, Pids, Forks, History;
    var s, k := ForkOf(t, c);
    var u := AfterForkDone(t, c);
    DoneForks(t.procs, s, k);
    FewerPids(t.procs, u.procs, t.nextpid);
    DoneHistory(t.procs, s, k, t.exited, t.reaped, t.nextpid);
    SameRunning(t.procs, u.procs, t.cpus);
    DoneFamily(t.procs, s, k);
    DoneWait(t.procs, s, k);
  }

  lemma CollectFamily(ps: seq<Proc>, k: nat)
    requires Family(ps) && k < |ps| && ps[k].state == Zombie
    ensures Family(ps[k := Collected(ps[k])])
  {
    var qs := ps[k := Collected(ps[k])];
    forall r | 0 <= r < |qs| ensures ParentOk(qs, r) {
      assert ParentOk(ps, r);
    }
  }

  lemma CollectWait(ps: seq<Proc>, s: nat, k: nat)
    requires WaitOk(ps) && s < |ps| && k < |ps| && ps[s].state == Running && ZombieChild(ps[k], s)
    ensures WaitOk(ps[k := Collected(ps[k])])
  {
    var qs := ps[k := Collected(ps[k])];
    forall r | 0 <= r < |qs| && qs[r].state == Sleeping && qs[r].chan.OfProc?
      ensures qs[r].chan == OfProc(r) && HasChild(qs, r) && NoZombie(qs, r)
    {
      var i :| 0 <= i < |ps| && Child(ps[i], r);
      assert Child(qs[i], r);
    }
  }

  lemma CollectForks(ps: seq<Proc>, k: nat)
    requires Forks(ps) && k < |ps| && ps[k].state == Zombie
    ensures Forks(ps[k := Collected(ps[k])])
  {
    var qs := ps[k := Collected(ps[k])];
    forall r | 0 <= r < |qs| ensures ForkOk(qs, r) {
      assert ForkOk(ps, r);
    }
    forall e | 0 <= e < |qs| && qs[e].state == Embryo ensures Raised(qs, e) {
      var r :| 0 <= r < |ps| && ps[r].np == Some(e);
      assert qs[r].np == Some(e);
    }
  }

  lemma CollectZombies(ps: seq<Proc>, k: nat, nextpid: nat, pid: nat)
    requires Pids(ps, nextpid) && k < |ps| && ps[k].state == Zombie
    ensures ZombiePid(ps[k := Collected(ps[k])], pid) <==> ZombiePid(ps, pid) && pid != ps[k].pid
  {
    var qs := ps[k := Collected(ps[k])];
    if ZombiePid(ps, pid) && pid != ps[k].pid {
      var s :| 0 <= s < |ps| && ps[s].state == Zombie && ps[s].pid == pid;
      assert qs[s].state == Zombie;
    }
    if ZombiePid(qs, pid) {
      var s :| 0 <= s < |qs| && qs[s].state == Zombie && qs[s].pid == pid;
      assert s != k && ps[s].state == Zombie;
    }
  }

  /** wait() collects a pid that had exited and was never collected before. */
  lemma CollectHistory(ps: seq<Proc>, k: nat, exited: set<nat>, reaped: seq<nat>, nextpid: nat)
    requires History(ps, exited, reaped, nextpid) && Pids(ps, nextpid) && k < |ps| && ps[k].state == Zombie
    ensures History(ps[k := Collected(ps[k])], exited, reaped + [ps[k].pid], nextpid)
  {
    var qs := ps[k := Collected(ps[k])];
    assert ZombiePid(ps, ps[k].pid);
    forall pid: nat ensures ZombiePid(qs, pid) <==> ZombiePid(ps, pid) && pid != ps[k].pid {
      CollectZombies(ps, k, nextpid, pid);
    }
    hide ZombiePid, Pids;
    assert Distinct(reaped + [ps[k].pid]);
  }

  lemma CollectInv(t: Table, c: nat, k: nat)
    requires Inv(t) && OnCpu(t, c) && t.procs[Cur(t, c)].state == Running
    requires k < |t.procs| && ZombieChild(t.procs[k], Cur(t, c))
    ensures Inv(Put(t, k, Collected(t.procs[k])).(reaped := t.reaped + [t.procs[k].pid]))
  {
    hide Cpus, Family, WaitOk, Pids, Forks, History;
    var ps, s := t.procs, Cur(t, c);
    var qs := ps[k := Collected(ps[k])];
    SameRunning(ps, qs, t.cpus);
    CollectFamily(ps, k);
    CollectWait(ps, s, k);
    CollectForks(ps, k);
    FewerPids(ps, qs, t.nextpid);
    CollectHistory(ps, k, t.exited, t.reaped, t.nextpid);
  }

  lemma WaitInv(t: Table, c: nat)
    requires Inv(t) && OnCpu(t, c) && t.procs[Cur(t, c)].state == Running
    ensures Inv(AfterWait(t, c))
  {
    hide Inv, First;
    var s := Cur(t, c);
    var k := First(t.procs, ZombieOf(s));
    if k < |t.procs| {
      assert Holds(ZombieOf(s), t.procs[k]);
      CollectInv(t, c, k);
    } else if Any(t.procs, ChildOf(s)) && !t.procs[s].killed {
      WaitSleepInv(t, c);
    }
  }

  /** The table after exit() handed the children of s to init and made s a zombie. */
  ghost predicate Passed(ps: seq<Proc>, qs: seq<Proc>, s: nat) {
    && s < |ps| && |qs| == |ps| && ps[s].state == Running && ps[s].np.None?
    && (forall i :: 0 <= i < |ps| && i != s ==> qs[i] == Adopted(ps[i], s, Any(ps, ZombieOf(s))))
    && qs[s] == Adopted(ps[s], s, Any(ps, ZombieOf(s))).(state := Zombie)
  }

  lemma ExitFamily(ps: seq<Proc>, qs: seq<Proc>, s: nat)
    requires Family(ps) && Passed(ps, qs, s) && s != INIT
    ensures Family(qs)
  {
    hide Any;
    assert ParentOk(ps, s);
    forall r | 0 <= r < |qs| ensures ParentOk(qs, r) {
      assert ParentOk(ps, r);
    }
  }

  lemma ExitWait(ps: seq<Proc>, qs: seq<Proc>, s: nat, q: nat)
    requires WaitOk(ps) && Passed(ps, qs, s) && q < |ps| && q != s && ps[s].parent == Some(q) && !Waiting(ps[q], q)
    ensures WaitOk(qs)
  {
    var z := First(ps, ZombieOf(s));
    hide First;
    forall r | 0 <= r < |qs| && qs[r].state == Sleeping && qs[r].chan.OfProc?
      ensures qs[r].chan == OfProc(r) && HasChild(qs, r) && NoZombie(qs, r)
    {
      assert r != s && ps[r].state == Sleeping && ps[r].chan == OfProc(r);
      var i :| 0 <= i < |ps| && Child(ps[i], r);
      assert Child(qs[i], r);
      forall j | 0 <= j < |qs| ensures !ZombieChild(qs[j], r) {
        assert !ZombieChild(ps[j], r);
        assert j != s && ZombieChild(ps[j], s) ==> Holds(ZombieOf(s), ps[j]) && z < |ps|;
      }
    }
  }

  lemma ExitForks(ps: seq<Proc>, qs: seq<Proc>, s: nat)
    requires Forks(ps) && Passed(ps, qs, s)
    ensures Forks(qs)
  {
    hide Any;
    assert forall i :: 0 <= i < |ps| ==> qs[i].np == ps[i].np && (i != s ==> Alive(qs[i]) == Alive(ps[i]));
    assert forall i :: 0 <= i < |ps| ==> (qs[i].state == Embryo) == (ps[i].state == Embryo);
    hide Passed;
    forall r | 0 <= r < |qs| ensures ForkOk(qs, r) {
      assert ForkOk(ps, r);
    }
    forall e | 0 <= e < |qs| && qs[e].state == Embryo ensures Raised(qs, e) {
      var r :| 0 <= r < |ps| && ps[r].np == Some(e);
      assert qs[r].np == Some(e);
    }
  }

  lemma ExitZombies(ps: seq<Proc>, qs: seq<Proc>, s: nat, pid: nat)
    requires Passed(ps, qs, s)
    ensures ZombiePid(qs, pid) <==> ZombiePid(ps, pid) || pid == ps[s].pid
  {
    hide Any;
    assert forall i :: 0 <= i < |ps| ==> qs[i].pid == ps[i].pid && (i != s ==> (qs[i].state == Zombie) == (ps[i].state == Zombie));
    assert qs[s].state == Zombie && qs[s].pid == ps[s].pid;
  }

  lemma ExitHistory(ps: seq<Proc>, qs: seq<Proc>, s: nat, exited: set<nat>, reaped: seq<nat>, nextpid: nat)
    requires History(ps, exited, reaped, nextpid) && Pids(ps, nextpid) && Passed(ps, qs, s)
    ensures History(qs, exited + {ps[s].pid}, reaped, nextpid)
  {
    hide Any;
    forall pid: nat ensures ZombiePid(qs, pid) <==> ZombiePid(ps, pid) || pid == ps[s].pid {
      ExitZombies(ps, qs, s, pid);
    }
    forall i | 0 <= i < |qs| && (Alive(qs[i]) || qs[i].state == Embryo) ensures qs[i].pid !in exited + {ps[s].pid} {
      assert i != s && qs[i].pid == ps[i].pid;
      assert ps[s].pid > 0 && ps[i].pid != ps[s].pid;
    }
    hide ZombiePid;
  }

  lemma ExitCpus(ps: seq<Proc>, qs: seq<Proc>, cpus: seq<Option<nat>>, c: nat, s: nat)
    requires Cpus(ps, cpus) && Passed(ps, qs, s) && c < |cpus| && cpus[c] == Some(s)
    ensures Cpus(qs, cpus[c := None])
  {
    hide Any;
    StopRunning(ps, qs, cpus, c);
  }

  lemma ExitPids(ps: seq<Proc>, qs: seq<Proc>, s: nat, nextpid: nat)
    requires Pids(ps, nextpid) && Passed(ps, qs, s)
    ensures Pids(qs, nextpid)
  {
    hide Any;
    FewerPids(ps, qs, nextpid);
  }

  lemma ExitParent(t: Table, c: nat) returns (q: nat)
    requires Inv(t) && OnCpu(t, c) && Cur(t, c) != INIT && t.procs[Cur(t, c)].state == Running
    ensures t.procs[Cur(t, c)].parent == Some(q) && q < |t.procs| && q != Cur(t, c) && Alive(t.procs[q])
  {
    assert ParentOk(t.procs, Cur(t, c));
    q := t.procs[Cur(t, c)].parent.value;
  }

  lemma ExitInv(t: Table, c: nat)
    requires Inv(t) && OnCpu(t, c) && Cur(t, c) != INIT && t.procs[Cur(t, c)].state == Running && t.procs[Cur(t, c)].np.None?
    ensures t.procs[Cur(t, c)].parent.Some? && Inv(AfterExit(t, c))
  {
    hide Cpus, Family, WaitOk, Pids, Forks, History, Any;
    var s := Cur(t, c);
    var q := ExitParent(t, c);
    WakeInv(t, OfProc(q));
    var ps := WakeAll(t.procs, OfProc(q));
    var u := AfterExit(t, c);
    var qs := u.procs;
    assert Passed(ps, qs, s);
    ExitCpus(ps, qs, t.cpus, c, s);
    ExitFamily(ps, qs, s);
    ExitWait(ps, qs, s, q);
    ExitForks(ps, qs, s);
    ExitPids(ps, qs, s, t.nextpid);
    ExitHistory(ps, qs, s, t.exited, t.reaped, t.nextpid);
  }

  lemma CurRunning(t: Table, c: nat)
    requires Inv(t) && OnCpu(t, c)
    ensures t.procs[Cur(t, c)].state == Running
  {
  }

  lemma KillInv(t: Table, pid: int)
    requires Inv(t)
    ensures Inv(AfterKill(t, pid))
  {
    hide Inv, First;
    var k := First(t.procs, HasPid(pid));
    if k < |t.procs| {
      PutInv(t, k, AfterKill(t, pid).procs[k], t.locks, t.asked);
    }
  }

  lemma NiceInv(t: Table, pid: int, value: int)
    requires Inv(t)
    ensures Inv(AfterNice(t, pid, value))
  {
    hide First;
    var k, u := First(t.procs, InUse(pid)), AfterNice(t, pid, value);
    if k < |t.procs| && 1 <= value <= 5 {
      PutInv(t, k, u.procs[k], t.locks, u.asked);
    }
  }

  lemma LockInv(t: Table, c: nat, id: int)
    requires Inv(t) && OnCpu(t, c)
    ensures Inv(AfterLock(t, c, id))
  {
    hide Cpus, Family, WaitOk, Pids, Forks, History;
    var s, u := Cur(t, c), AfterLock(t, c, id);
    if LockId(t, id) {
      if t.locks[id].None? {
        assert Inv(t.(locks := u.locks));
      } else if t.locks[id].value < |t.procs| {
        var h := t.locks[id].value;
        PutInv(t, h, Boosted(t.procs[h], t.procs[s].priority), t.locks, u.asked);
      }
    }
  }

  lemma ReleaseInv(t: Table, c: nat, id: int)
    requires Inv(t) && OnCpu(t, c)
    ensures Inv(AfterRelease(t, c, id))
  {
    hide Cpus, Family, WaitOk, Pids, Forks, History;
    var s, u := Cur(t, c), AfterRelease(t, c, id);
    if LockId(t, id) && t.locks[id] == Some(s) {
      PutInv(t, s, Restored(t.procs[s]), u.locks, u.asked);
    }
  }

  /** Every step of every CPU keeps the invariant. */
  lemma StepInv(t: Table, a: Step, u: Table)
    requires Inv(t) && Next(t, a, u)
    ensures Inv(u)
  {
    hide Cpus, Family, WaitOk, Pids, Forks, History, First;
    match a
    case Dispatch(c) =>
      if u != t {
        var k :| Chosen(t.procs, k) && u == Dispatched(t, c, k);
        DispatchInv(t, c, k);
      }
    case TakeTurn(c, k) => DispatchInv(t, c, k);
    case Yield(c) =>
      CurRunning(t, c);
      LeaveInv(t, c, t.procs[Cur(t, c)].(state := Runnable));
    case Sleep(c, n) =>
      CurRunning(t, c);
      LeaveInv(t, c, t.procs[Cur(t, c)].(chan := Other(n), state := Sleeping));
    case Wakeup(n) => WakeInv(t, Other(n));
    case ForkAlloc(c) => CurRunning(t, c); ForkAllocInv(t, c);
    case ForkFail(c) => ForkFailInv(t, c);
    case ForkDone(c) => ForkDoneInv(t, c);
    case Exit(c) => CurRunning(t, c); ExitInv(t, c);
    case Wait(c) => CurRunning(t, c); WaitInv(t, c);
    case Kill(pid) => KillInv(t, pid);
    case Nice(pid, value) => NiceInv(t, pid, value);
    case Lock(c, id) => LockInv(t, c, id);
    case Release(c, id) => ReleaseInv(t, c, id);
  }

  lemma InitInv(t: Table)
    requires Init(t)
    ensures Inv(t)
  {
    assert forall pid: nat :: !ZombiePid(t.procs, pid);
    forall s | 0 <= s < |t.procs| ensures ParentOk(t.procs, s) {
    }
  }

  lemma {:induction false} RunInv(ts: seq<Table>, steps: seq<Step>, i: nat)
    requires Run(ts, steps) && Init(ts[0]) && i < |ts|
    ensures Inv(ts[i])
  {
    hide Next, Inv;
    if i == 0 {
      InitInv(ts[0]);
    } else {
      RunInv(ts, steps, i - 1);
      assert Next(ts[i - 1], steps[i - 1], ts[i]);
      StepInv(ts[i - 1], steps[i - 1], ts[i]);
    }
  }

  /** Whenever ptable.lock is free, a process is RUNNING exactly when one CPU, and only one, runs it. */
  lemma RunningOnOneCpu(ts: seq<Table>, steps: seq<Step>, i: nat, s: nat)
    requires Run(ts, steps) && Init(ts[0]) && i < |ts| && s < |ts[i].procs|
    ensures ts[i].procs[s].state == Running <==> Some(s) in ts[i].cpus
    ensures forall c, d :: 0 <= c < |ts[i].cpus| && 0 <= d < |ts[i].cpus| && ts[i].cpus[c] == Some(s) == ts[i].cpus[d] ==> c == d
  {
    hide Run, Init;
    RunInv(ts, steps, i);
  }

  /** In every reachable state a zombie's parent lives and is not asleep in wait(): no exit is missed. */
  lemma NoMissedExit(ts: seq<Table>, steps: seq<Step>, i: nat, z: nat)
    requires Run(ts, steps) && Init(ts[0]) && i < |ts| && z < |ts[i].procs| && ts[i].procs[z].state == Zombie
    ensures exists q :: ts[i].procs[z].parent == Some(q) && q < |ts[i].procs| && Alive(ts[i].procs[q]) && !Waiting(ts[i].procs[q], q)
  {
    hide Run, Init;
    RunInv(ts, steps, i);
    var ps := ts[i].procs;
    assert ParentOk(ps, z);
    var q := ps[z].parent.value;
    assert ZombieChild(ps[z], q);
  }

  /** Every pid that exits stays a zombie until wait() returns it, and is returned at most once. */
  lemma CollectedOnce(ts: seq<Table>, steps: seq<Step>, i: nat, pid: nat)
    requires Run(ts, steps) && Init(ts[0]) && i < |ts|
    ensures Distinct(ts[i].reaped)
    ensures pid in ts[i].exited <==> (pid in ts[i].reaped) != ZombiePid(ts[i].procs, pid)
  {
    hide Run, Init;
    RunInv(ts, steps, i);
  }

  lemma {:induction false} ChoiceExists(ps: seq<Proc>, n: nat) returns (k: nat)
    requires n <= |ps| && exists j :: 0 <= j < n && ps[j].state == Runnable
    ensures Best(ps, n, k)
  {
    if exists j :: 0 <= j < n - 1 && ps[j].state == Runnable {
      k := ChoiceExists(ps, n - 1);
      if ps[n - 1].state == Runnable && ps[n - 1].priority < ps[k].priority {
        k := n - 1;
      }
    } else {
      k := n - 1;
    }
  }

  /** No reachable state blocks an enabled step. */
  lemma StepExists(t: Table, a: Step) returns (u: Table)
    requires Inv(t) && Enabled(t, a)
    ensures Next(t, a, u)
  {
    hide Cpus, Family, WaitOk, Pids, Forks, History, First, WakeAll;
    match a
    case Dispatch(c) =>
      if Idle(t.procs) {
        u := t;
      } else {
        var k := ChoiceExists(t.procs, |t.procs|);
        u := Dispatched(t, c, k);
      }
    case TakeTurn(c, k) => u := Dispatched(t, c, k);
    case Yield(c) => u := Leave(t, c, t.procs[Cur(t, c)].(state := Runnable));
    case Sleep(c, n) => u := Leave(t, c, t.procs[Cur(t, c)].(chan := Other(n), state := Sleeping));
    case Wakeup(n) => u := t.(procs := WakeAll(t.procs, Other(n)));
    case ForkAlloc(c) => u := AfterForkAlloc(t, c);
    case ForkFail(c) => ForkFailInv(t, c); u := AfterForkFail(t, c);
    case ForkDone(c) => ForkDoneInv(t, c); u := AfterForkDone(t, c);
    case Exit(c) => CurRunning(t, c); ExitInv(t, c); u := AfterExit(t, c);
    case Wait(c) => u := AfterWait(t, c);
    case Kill(pid) => u := AfterKill(t, pid);
    case Nice(pid, value) => u := AfterNice(t, pid, value);
    case Lock(c, id) => u := AfterLock(t, c, id);
    case Release(c, id) => u := AfterRelease(t, c, id);
  }
}
