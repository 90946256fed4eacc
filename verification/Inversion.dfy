/** A run in which raising the nice value of an unboosted lock holder inverts priorities: the holder
    forgets who asked, and a dispatch picks a process worse than a requester. */
module Inversion {
  import opened Options
  import opened Processes

  /** A slot as this run uses it. */
  function P(state: RunState, pid: nat, parent: Option<nat>, nice: int, np: Option<nat> := None): Proc {
    Proc(state, pid, parent, NoChan, false, nice, nice, -1, np)
  }

  const EMPTY := Proc(Unused, 0, None, NoChan, false, 0, 0, 0, None)

  /** Three slots, two CPUs, one lock in use. */
  function T(p0: Proc, p1: Proc, p2: Proc, c0: Option<nat>, c1: Option<nat>, lock: Option<nat>, nextpid: nat, asks: seq<int>): Table {
    Table([p0, p1, p2], [c0, c1], [lock, None, None, None, None, None, None], nextpid, {}, [], [asks, [], []])
  }

  /** init starts and forks twice. */
  function Forked(k: nat): Table {
    if k == 0 then T(P(Runnable, 1, None, 3), EMPTY, EMPTY, None, None, None, 2, [])
    else if k == 1 then T(P(Running, 1, None, 3), EMPTY, EMPTY, Some(0), None, None, 2, [])
    else if k == 2 then T(P(Running, 1, None, 3, Some(1)), P(Embryo, 2, None, 3), EMPTY, Some(0), None, None, 3, [])
    else if k == 3 then T(P(Running, 1, None, 3), P(Runnable, 2, Some(0), 3), EMPTY, Some(0), None, None, 3, [])
    else if k == 4 then T(P(Running, 1, None, 3, Some(2)), P(Runnable, 2, Some(0), 3), P(Embryo, 3, None, 3), Some(0), None, None, 4, [])
    else T(P(Running, 1, None, 3), P(Runnable, 2, Some(0), 3), P(Runnable, 3, Some(0), 3), Some(0), None, None, 4, [])
  }

  /** init, at nice 1, takes lock 0; the first child asks for it at 3; init's nice value becomes 5. */
  function Asked(k: nat): Table {
    var first := P(Runnable, 2, Some(0), 3);
    var asking := P(Running, 2, Some(0), 3);
    var other := P(Runnable, 3, Some(0), 4);
    if k == 0 then T(P(Running, 1, None, 3), first, other, Some(0), None, None, 4, [])
    else if k == 1 then T(P(Running, 1, None, 1), first, other, Some(0), None, None, 4, [])
    else if k == 2 then T(P(Running, 1, None, 1), first, other, Some(0), None, Some(0), 4, [])
    else if k == 3 then T(P(Running, 1, None, 1), asking, other, Some(0), Some(1), Some(0), 4, [])
    else if k == 4 then T(P(Running, 1, None, 1), asking, other, Some(0), Some(1), Some(0), 4, [3])
    else if k == 5 then T(P(Running, 1, None, 5), asking, other, Some(0), Some(1), Some(0), 4, [3])
    else if k == 6 then T(P(Runnable, 1, None, 5), asking, other, None, Some(1), Some(0), 4, [3])
    else T(P(Runnable, 1, None, 5), asking, P(Running, 3, Some(0), 4), Some(2), Some(1), Some(0), 4, [3])
  }

  function At(i: nat): Table {
    if i <= 5 then Forked(i) else Asked(i - 6)
  }

  function Move(i: nat): Step {
    if i == 0 then Dispatch(0)
    else if i == 1 || i == 3 then ForkAlloc(0)
    else if i == 2 || i == 4 then ForkDone(0)
    else if i == 5 then Nice(3, 4)
    else if i == 6 then Nice(1, 1)
    else if i == 7 then Lock(0, 0)
    else if i == 8 then Dispatch(1)
    else if i == 9 then Lock(1, 0)
    else if i == 10 then Nice(1, 5)
    else if i == 11 then Yield(0)
    else Dispatch(0)
  }

  function Tables(): (ts: seq<Table>)
    ensures |ts| == 14 && forall i :: 0 <= i < 14 ==> ts[i] == At(i)
  {
    seq(14, i requires 0 <= i => At(i))
  }

  function Moves(): (steps: seq<Step>)
    ensures |steps| == 13 && forall i :: 0 <= i < 13 ==> steps[i] == Move(i)
  {
    seq(13, i requires 0 <= i => Move(i))
  }

  lemma Starts()
    ensures Next(Forked(0), Dispatch(0), Forked(1))
  {
    assert Chosen(Forked(0).procs, 0) && Forked(1) == Dispatched(Forked(0), 0, 0);
  }

  lemma FirstAlloc()
    ensures Next(Forked(1), ForkAlloc(0), Forked(2))
  {
    assert First(Forked(1).procs, IsUnused) == 1;
    assert Forked(2) == AfterForkAlloc(Forked(1), 0);
  }

  lemma FirstDone()
    ensures Next(Forked(2), ForkDone(0), Forked(3))
  {
    assert Forked(3) == AfterForkDone(Forked(2), 0);
  }

  lemma SecondAlloc()
    ensures Next(Forked(3), ForkAlloc(0), Forked(4))
  {
    assert First(Forked(3).procs, IsUnused) == 2;
    assert Forked(4) == AfterForkAlloc(Forked(3), 0);
  }

  lemma SecondDone()
    ensures Next(Forked(4), ForkDone(0), Forked(5))
  {
    assert Forked(5) == AfterForkDone(Forked(4), 0);
  }

  lemma Nices()
    ensures Next(Forked(5), Nice(3, 4), Asked(0)) && Next(Asked(0), Nice(1, 1), Asked(1))
  {
    assert First(Forked(5).procs, InUse(3)) == 2;
    assert Asked(0) == AfterNice(Forked(5), 3, 4);
    assert First(Asked(0).procs, InUse(1)) == 0;
    assert Asked(1) == AfterNice(Asked(0), 1, 1);
  }

  lemma Takes()
    ensures Next(Asked(1), Lock(0, 0), Asked(2)) && Next(Asked(2), Dispatch(1), Asked(3))
  {
    assert Asked(2) == AfterLock(Asked(1), 0, 0);
    assert Chosen(Asked(2).procs, 1) && Asked(3) == Dispatched(Asked(2), 1, 1);
  }

  lemma Asks()
    ensures Next(Asked(3), Lock(1, 0), Asked(4))
  {
    var t, u := Asked(3), AfterLock(Asked(3), 1, 0);
    assert Boosted(t.procs[0], 3) == t.procs[0];
    assert u.asked == t.asked[0 := t.asked[0] + [3]];
    assert t.asked[0] + [3] == [3];
    assert u.asked == Asked(4).asked;
    assert u.procs == t.procs;
    assert u == Asked(4);
  }

  lemma Raises()
    ensures Next(Asked(4), Nice(1, 5), Asked(5)) && Next(Asked(5), Yield(0), Asked(6))
  {
    assert First(Asked(4).procs, InUse(1)) == 0;
    assert Asked(5) == AfterNice(Asked(4), 1, 5);
    assert Asked(6) == Leave(Asked(5), 0, Asked(5).procs[0].(state := Runnable));
  }

  lemma Inverts()
    ensures Next(Asked(6), Dispatch(0), Asked(7))
  {
    assert Chosen(Asked(6).procs, 2) && Asked(7) == Dispatched(Asked(6), 0, 2);
  }

  lemma EachMove(i: nat)
    requires i < 13
    ensures Next(At(i), Move(i), At(i + 1))
  {
    hide Next, Forked, Asked;
    Starts();
    FirstAlloc();
    FirstDone();
    SecondAlloc();
    SecondDone();
    Nices();
    Takes();
    Asks();
    Raises();
    Inverts();
  }

  /** The holder, never boosted, is runnable and a process at 3 has asked for its lock; the dispatch
      picks one at 4. */
  lemma NiceInverts()
    ensures Run(Tables(), Moves()) && Init(Tables()[0])
    ensures Moves()[10] == Nice(1, 5) && Tables()[10].procs[0].original == -1 && Tables()[10].procs[0].nice == 1
    ensures var t := Tables()[12];
      && t.locks[0] == Some(0) && t.procs[0].state == Runnable && t.asked[0] == [3]
      && Moves()[12] == Dispatch(0) && Tables()[13] == Dispatched(t, 0, 2) && t.procs[2].priority == 4
  {
    var ts, steps := Tables(), Moves();
    forall i | 0 <= i < |steps| ensures Next(ts[i], steps[i], ts[i + 1]) {
      EachMove(i);
    }
    hide Next;
    assert Asked(7) == Dispatched(Asked(6), 0, 2);
  }
}
