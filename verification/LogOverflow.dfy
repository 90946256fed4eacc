/** The log mkfs lays out has LOGSIZE blocks, header included.  For it, and every smaller one, the
    reservations do not suffice: modest operations reach a log_write that panics, and in another
    interleaving one that outgrows the log, after which commit() overwrites a home block. */
module LogOverflow {
  import opened Blocks
  import opened LogFormat
  import opened LogProtocol
  import opened LogProofs

  /** A run of modest operations. */
  ghost predicate Path(l: Layout, s: State, steps: seq<Step>, t: State) {
    Reaches(l, s, steps, t) && Modest(l, s, steps)
  }

  lemma One(l: Layout, s: State, step: Step)
    requires Shape(l, s) && Enabled(l, s, step) && Keeps(s, step)
    ensures Path(l, s, [step], Next(l, s, step))
  {
    assert [step][1..] == [];
  }

  lemma {:induction false} Then(l: Layout, s: State, a: seq<Step>, m: State, b: seq<Step>, t: State)
    requires Path(l, s, a, m) && Path(l, m, b, t)
    ensures Path(l, s, a + b, t)
    decreases |a|
  {
    if a == [] {
      assert a + b == b;
    } else {
      assert (a + b)[1..] == a[1..] + b;
      Then(l, Next(l, s, a[0]), a[1..], m, b, t);
    }
  }

  lemma Thence(l: Layout, s: State, a: seq<Step>, m: State, step: Step)
    requires Path(l, s, a, m) && Shape(l, m) && Enabled(l, m, step) && Keeps(m, step)
    ensures Path(l, s, a + [step], Next(l, m, step))
  {
    One(l, m, step);
    Then(l, s, a, m, [step], Next(l, m, step));
  }

  /** Entries the i-th of three operations has added when there are k: up to 10, 9 and 9 in turn. */
  function Share(k: nat, i: nat): nat {
    var before := if i == 0 then 0 else if i == 1 then 10 else 19;
    var most := if i == 0 then 10 else 9;
    if k < before then 0 else if k < before + most then k - before else most
  }

  function Turn(k: nat): nat {
    if k < 10 then 0 else if k < 19 then 1 else 2
  }

  ghost predicate Filling(s: State, hs: seq<nat>, op: nat) {
    && |s.lh| <= |hs| && s.lh == hs[..|s.lh|] && s.phase.Running? && s.checked == {}
    && s.active == map[op := Share(|s.lh|, 0), op + 1 := Share(|s.lh|, 1), op + 2 := Share(|s.lh|, 2)]
  }

  lemma Filled(s: State, hs: seq<nat>, op: nat, t: State)
    requires Filling(s, hs, op) && |s.lh| < 28 && |s.lh| < |hs|
    requires t.lh == s.lh + [hs[|s.lh|]] && t.phase == s.phase && t.checked == {}
    requires t.active == s.active[op + Turn(|s.lh|) := s.active[op + Turn(|s.lh|)] + 1]
    ensures Filling(t, hs, op)
  {
    assert t.active.Keys == {op, op + 1, op + 2};
  }

  /** One whole log_write of operation op with nothing in between. */
  lemma WriteOnce(l: Layout, base: seq<Block>, s: State, op: nat, bno: nat) returns (steps: seq<Step>, t: State)
    requires Inv(l, base, s) && op in s.active && s.active[op] < MAXOPBLOCKS && s.checked == {}
    requires Home(l, bno) && bno !in s.lh && Room(l, |s.lh| + 1)
    ensures Path(l, s, steps, t) && Inv(l, base, t) && t.stable == s.stable && t.phase == s.phase && t.checked == {}
    ensures t.lh == s.lh + [bno] && t.active == s.active[op := s.active[op] + 1]
  {
    var check, append := LogCheck(op), LogAppend(op, bno, ZeroBlock());
    ActiveMeansRunning(l, base, s, op);
    StepInv(l, base, s, check);
    var m := Next(l, s, check);
    StepInv(l, base, m, append);
    t := Next(l, m, append);
    assert Keeps(s, check) && Keeps(m, append) && Shape(l, s) && Shape(l, m);
    assert t.checked == {};
    hide *;
    One(l, s, check);
    Thence(l, s, [check], m, append);
    steps := [check] + [append];
  }

  lemma FillStep(l: Layout, base: seq<Block>, s: State, hs: seq<nat>, op: nat) returns (steps: seq<Step>, t: State)
    requires Inv(l, base, s) && Filling(s, hs, op) && Listable(l, hs) && |s.lh| < |hs|
    requires |s.lh| < 28 && Room(l, |s.lh| + 1)
    ensures Path(l, s, steps, t) && Inv(l, base, t) && Filling(t, hs, op) && |t.lh| == |s.lh| + 1 && t.stable == s.stable
  {
    hide Inv, Path;
    var k := |s.lh|;
    assert hs[k] !in s.lh;
    steps, t := WriteOnce(l, base, s, op + Turn(k), hs[k]);
    Filled(s, hs, op, t);
  }

  lemma {:induction false} Fill(l: Layout, base: seq<Block>, s: State, hs: seq<nat>, op: nat, n: nat)
    returns (steps: seq<Step>, t: State)
    requires Inv(l, base, s) && Filling(s, hs, op) && Listable(l, hs)
    requires |s.lh| <= n <= |hs| && n <= 28 && (n == 0 || Room(l, n))
    ensures Path(l, s, steps, t) && Inv(l, base, t) && Filling(t, hs, op) && |t.lh| == n && t.stable == s.stable
    decreases n - |s.lh|
  {
    if |s.lh| == n {
      steps, t := [], s;
    } else {
      var a, m := FillStep(l, base, s, hs, op);
      var b, u := Fill(l, base, m, hs, op, n);
      Then(l, s, a, m, b, u);
      steps, t := a + b, u;
    }
  }

  ghost predicate Fresh(s: State, op: nat) {
    && s.phase.Running? && s.lh == [] && s.active == map[]
    && op !in s.used && op + 1 !in s.used && op + 2 !in s.used
  }

  /** An idle log takes three operations. */
  lemma Start(l: Layout, base: seq<Block>, s: State, hs: seq<nat>, op: nat) returns (steps: seq<Step>, t: State)
    requires Inv(l, base, s) && Fresh(s, op)
    ensures Path(l, s, steps, t) && Inv(l, base, t) && Filling(t, hs, op) && t.lh == [] && t.stable == s.stable
  {
    StepInv(l, base, s, BeginOp(op));
    var s1 := Next(l, s, BeginOp(op));
    One(l, s, BeginOp(op));
    assert s1.active == map[op := 0];
    StepInv(l, base, s1, BeginOp(op + 1));
    var s2 := Next(l, s1, BeginOp(op + 1));
    Thence(l, s, [BeginOp(op)], s1, BeginOp(op + 1));
    assert s2.active == map[op := 0, op + 1 := 0];
    StepInv(l, base, s2, BeginOp(op + 2));
    t := Next(l, s2, BeginOp(op + 2));
    Thence(l, s, [BeginOp(op)] + [BeginOp(op + 1)], s2, BeginOp(op + 2));
    steps := [BeginOp(op)] + [BeginOp(op + 1)] + [BeginOp(op + 2)];
    assert t.active == map[op := 0, op + 1 := 0, op + 2 := 0];
    assert t.lh == hs[..0];
  }

  lemma StartAndFill(l: Layout, base: seq<Block>, s: State, hs: seq<nat>, op: nat, n: nat)
    returns (steps: seq<Step>, t: State)
    requires Inv(l, base, s) && Fresh(s, op) && Listable(l, hs) && n <= |hs| && n <= 28 && (n == 0 || Room(l, n))
    ensures Path(l, s, steps, t) && Inv(l, base, t) && Filling(t, hs, op) && |t.lh| == n && t.stable == s.stable
  {
    var a, m := Start(l, base, s, hs, op);
    var b, u := Fill(l, base, m, hs, op, n);
    Then(l, s, a, m, b, u);
    steps, t := a + b, u;
  }

  /** Three modest operations reach a log_write that panics. */
  lemma SmallLogPanics(l: Layout, base: seq<Block>, s: State, hs: seq<nat>, op: nat)
    returns (steps: seq<Step>, t: State)
    requires Inv(l, base, s) && Fresh(s, op)
    requires l.size <= LOGSIZE && |hs| == l.size && Listable(l, hs)
    ensures Path(l, s, steps, t)
    ensures op + 2 in t.active && t.active[op + 2] < MAXOPBLOCKS && LogWritePanics(l, t)
  {
    var n := if l.size == 1 then 0 else l.size - 2;
    assert l.size >= 1 by {
      hide PhaseInv, Durable, Shows, Whole, Events, Listable;
    }
    hide Inv;
    var a, m := StartAndFill(l, base, s, hs, op, n);
    if l.size == 1 {
      steps, t := a, m;
    } else {
      assert hs[n] !in m.lh;
      var b, u := WriteOnce(l, base, m, op + 1, hs[n]);
      Then(l, s, a, m, b, u);
      steps, t := a + b, u;
    }
  }

  /** Where write_log stands after pc of its writes, the list having outgrown the log. */
  ghost predicate Overlong(l: Layout, s: State, hs: seq<nat>, pc: nat, data: Block) {
    && Shape(l, s) && 0 < l.size == |hs| && l.start + l.size < l.blocks && s.lh == hs && s.disk.header == []
    && s.phase == Committing(pc) && pc < l.size && s.view[hs[l.size - 1]] == data
  }

  lemma SlotStep(l: Layout, s: State, hs: seq<nat>, pc: nat, data: Block)
    requires Overlong(l, s, hs, pc, data)
    ensures var step := CommitWrite(Data(l.start + 1 + pc, s.view[hs[pc]]));
            && Enabled(l, s, step) && Next(l, s, step).stable == s.stable
            && (pc + 1 < l.size ==> Overlong(l, Next(l, s, step), hs, pc + 1, data))
  {
    var w := Data(l.start + 1 + pc, s.view[hs[pc]]);
    assert IsCommitWrite(l, s.disk, s.view, s.lh, pc, w);
    if pc + 1 < l.size {
      assert Home(l, hs[l.size - 1]);
    }
  }

  lemma {:induction false} SlotSteps(l: Layout, s: State, hs: seq<nat>, pc: nat, data: Block) returns (steps: seq<Step>, t: State)
    requires Overlong(l, s, hs, pc, data)
    ensures Path(l, s, steps, t) && Overlong(l, t, hs, l.size - 1, data) && t.stable == s.stable
    decreases l.size - pc
  {
    if pc == l.size - 1 {
      steps, t := [], s;
    } else {
      var step := CommitWrite(Data(l.start + 1 + pc, s.view[hs[pc]]));
      SlotStep(l, s, hs, pc, data);
      One(l, s, step);
      var b, u := SlotSteps(l, Next(l, s, step), hs, pc + 1, data);
      Then(l, s, [step], Next(l, s, step), b, u);
      steps, t := [step] + b, u;
    }
  }

  /** Three operations are running and the list has outgrown the log. */
  ghost predicate Outgrown(l: Layout, s: State, hs: seq<nat>, op: nat, data: Block) {
    && Shape(l, s) && 0 < l.size == |hs| && s.lh == hs && s.disk.header == []
    && s.phase.Running? && s.checked == {} && s.outstanding == 3 && s.active.Keys == {op, op + 1, op + 2}
    && s.view[hs[l.size - 1]] == data
  }

  lemma Checked(l: Layout, s: State, op: nat, step: Step)
    requires Shape(l, s) && step == LogCheck(op) && op in s.active && op !in s.checked
    requires Room(l, |s.lh| + 1) && s.outstanding > 0
    ensures Enabled(l, s, step) && Next(l, s, step) == s.(checked := s.checked + {op}) && Shape(l, Next(l, s, step))
  {
  }

  lemma Appended(l: Layout, s: State, op: nat, bno: nat, data: Block)
    requires Shape(l, s) && op in s.active && op in s.checked && Home(l, bno) && bno !in s.lh && s.active[op] < MAXOPBLOCKS
    ensures var step := LogAppend(op, bno, data);
            && Enabled(l, s, step) && Keeps(s, step) && Shape(l, Next(l, s, step))
            && Next(l, s, step) == s.(lh := s.lh + [bno], view := s.view[bno := data], checked := s.checked - {op},
                 active := s.active[op := s.active[op] + 1], hist := s.hist + [Event(op, bno, data)])
  {
  }

  lemma ShapeStart(l: Layout, base: seq<Block>, s: State, hs: seq<nat>, op: nat)
    requires Inv(l, base, s) && Filling(s, hs, op)
    ensures Shape(l, s) && s.disk.header == [] && s.outstanding == 3
  {
    assert s.active.Keys == {op, op + 1, op + 2};
    assert |s.active.Keys| == 3;
  }

  lemma LastTwo(l: Layout, hs: seq<nat>)
    requires Listable(l, hs) && |hs| >= 2
    ensures Home(l, hs[|hs| - 2]) && Home(l, hs[|hs| - 1])
    ensures hs[|hs| - 2] !in hs[..|hs| - 2] && hs[|hs| - 1] !in hs[..|hs| - 2] + [hs[|hs| - 2]]
    ensures hs[..|hs| - 2] + [hs[|hs| - 2]] + [hs[|hs| - 1]] == hs
  {
  }

  /** Two operations have passed the tests with one place left. */
  ghost predicate BothChecked(l: Layout, s: State, hs: seq<nat>, op: nat) {
    && Shape(l, s) && s.disk.header == [] && s.phase.Running? && s.outstanding == 3 && s.checked == {op + 1, op + 2}
    && s.active.Keys == {op, op + 1, op + 2} && s.active[op + 1] < 10 && s.active[op + 2] < 10
    && |hs| >= 2 && s.lh == hs[..|hs| - 2]
  }

  lemma BothCheck(l: Layout, base: seq<Block>, s: State, hs: seq<nat>, op: nat) returns (steps: seq<Step>, t: State)
    requires Inv(l, base, s) && Filling(s, hs, op)
    requires 2 <= l.size <= LOGSIZE && |hs| == l.size && |s.lh| == l.size - 2
    ensures Path(l, s, steps, t) && BothChecked(l, t, hs, op) && t.stable == s.stable
  {
    ShapeStart(l, base, s, hs, op);
    hide Inv, Path, Shape, Enabled, Next;
    assert s.active.Keys == {op, op + 1, op + 2};
    var a1, a2 := LogCheck(op + 1), LogCheck(op + 2);
    Checked(l, s, op + 1, a1);
    var s1 := Next(l, s, a1);
    Checked(l, s1, op + 2, a2);
    t := Next(l, s1, a2);
    One(l, s, a1);
    Thence(l, s, [a1], s1, a2);
    steps := [a1] + [a2];
  }

  /** Both append, and the list outgrows the log. */
  lemma BothAppend(l: Layout, s: State, hs: seq<nat>, op: nat, data: Block) returns (steps: seq<Step>, t: State)
    requires BothChecked(l, s, hs, op) && Listable(l, hs) && |hs| == l.size
    ensures Path(l, s, steps, t) && Outgrown(l, t, hs, op, data) && t.stable == s.stable
  {
    var n := l.size - 2;
    LastTwo(l, hs);
    hide Path, Shape, Enabled, Next, Listable;
    var a3, a4 := LogAppend(op + 1, hs[n], ZeroBlock()), LogAppend(op + 2, hs[n + 1], data);
    Appended(l, s, op + 1, hs[n], ZeroBlock());
    var s3 := Next(l, s, a3);
    Appended(l, s3, op + 2, hs[n + 1], data);
    t := Next(l, s3, a4);
    assert t.active.Keys == {op, op + 1, op + 2};
    One(l, s, a3);
    Thence(l, s, [a3], s3, a4);
    steps := [a3] + [a4];
  }

  lemma Ended(l: Layout, s: State, op: nat)
    requires Shape(l, s) && op in s.active && op !in s.checked && s.phase.Running? && s.outstanding >= 1
    ensures Enabled(l, s, EndOp(op)) && Shape(l, Next(l, s, EndOp(op)))
    ensures Next(l, s, EndOp(op)) == s.(outstanding := s.outstanding - 1, active := s.active - {op},
              phase := if s.outstanding == 1 then Committing(0) else s.phase)
  {
  }

  /** The three operations end, and the last one starts to commit. */
  lemma AllEnd(l: Layout, s: State, hs: seq<nat>, op: nat, data: Block) returns (steps: seq<Step>, t: State)
    requires Outgrown(l, s, hs, op, data) && l.start + l.size < l.blocks
    ensures Path(l, s, steps, t) && Overlong(l, t, hs, 0, data) && t.stable == s.stable
  {
    hide Path, Shape, Enabled, Next;
    var a1, a2, a3 := EndOp(op), EndOp(op + 1), EndOp(op + 2);
    Ended(l, s, op);
    var s1 := Next(l, s, a1);
    Ended(l, s1, op + 1);
    var s2 := Next(l, s1, a2);
    Ended(l, s2, op + 2);
    t := Next(l, s2, a3);
    One(l, s, a1);
    Thence(l, s, [a1], s1, a2);
    Thence(l, s, [a1] + [a2], s2, a3);
    steps := [a1] + [a2] + [a3];
  }

  /** Another interleaving of three modest operations: two of them pass the tests of log_write with
      one place left, both append, and the list has outgrown the log. */
  lemma SmallLogOutgrown(l: Layout, base: seq<Block>, s: State, hs: seq<nat>, op: nat, data: Block)
    returns (steps: seq<Step>, t: State)
    requires Inv(l, base, s) && Fresh(s, op)
    requires 2 <= l.size <= LOGSIZE && |hs| == l.size && Listable(l, hs)
    ensures Path(l, s, steps, t) && Outgrown(l, t, hs, op, data) && t.stable == s.stable
  {
    var a, m := StartAndFill(l, base, s, hs, op, l.size - 2);
    hide Inv, Path, Filling, BothChecked, Outgrown, Listable;
    var k, p := BothCheck(l, base, m, hs, op);
    Then(l, s, a, m, k, p);
    var b, n := BothAppend(l, p, hs, op, data);
    Then(l, s, a + k, p, b, n);
    steps, t := a + k + b, n;
  }

  /** It ends with commit() about to write its last log slot over the home block after the log,
      with nothing listed in the header: a crash then recovers that block to contents meant for
      another. */
  lemma SmallLogOverflows(l: Layout, base: seq<Block>, s: State, hs: seq<nat>, op: nat, data: Block)
    returns (steps: seq<Step>, t: State)
    requires Inv(l, base, s) && Fresh(s, op)
    requires 2 <= l.size <= LOGSIZE && |hs| == l.size && Listable(l, hs) && l.start + l.size < l.blocks
    ensures Path(l, s, steps, t) && Overwrites(l, t, data) && t.stable == s.stable
  {
    var a, n := SmallLogOutgrown(l, base, s, hs, op, data);
    hide Inv, Path, Overlong, Outgrown, Listable, Overwrites;
    var c, o := AllEnd(l, n, hs, op, data);
    Then(l, s, a, n, c, o);
    var d, u := SlotSteps(l, o, hs, 0, data);
    Then(l, s, a + c, o, d, u);
    steps, t := a + c + d, u;
    LastSlot(l, t, hs, data);
  }

  /** The next write of commit() puts `data` into the home block after the log, before anything it
      commits is durable; what the disk then recovers to has `data` there. */
  ghost predicate Overwrites(l: Layout, t: State, data: Block) {
    var b := l.start + l.size;
    var step := CommitWrite(Data(b, data));
    && Shape(l, t) && !Room(l, |t.lh|) && Home(l, b) && Enabled(l, t, step)
    && var u := Next(l, t, step);
       u.stable == t.stable && u.disk.header == [] && WellFormed(l, u.disk) && Redo(l, u.disk, b) == data
  }

  lemma LastSlot(l: Layout, t: State, hs: seq<nat>, data: Block)
    requires l.size >= 1 && Overlong(l, t, hs, l.size - 1, data)
    ensures Overwrites(l, t, data)
  {
    SlotStep(l, t, hs, l.size - 1, data);
  }

  // ---- from boot ----

  /** Recovery can always finish. */
  lemma {:induction false} FinishRecovery(l: Layout, base: seq<Block>, s: State) returns (steps: seq<Step>, t: State)
    requires Inv(l, base, s) && s.phase.Recovering?
    ensures Path(l, s, steps, t) && Inv(l, base, t) && t.phase.Running? && t.lh == [] && t.active == map[]
    ensures t.used == s.used && t.stable == s.stable
    decreases |s.lh| + 1 - s.phase.pc
  {
    var pc := s.phase.pc;
    var step := if pc == |s.lh| + 1 then RecoverDone else RecoverWrite(
      if pc < |s.lh| then Data(s.lh[pc], s.disk.blocks[l.start + 1 + pc]) else Head([], ZeroBlock()));
    StepInv(l, base, s, step);
    One(l, s, step);
    var m := Next(l, s, step);
    if pc == |s.lh| + 1 {
      steps, t := [step], m;
    } else {
      var b, u := FinishRecovery(l, base, m);
      Then(l, s, [step], m, b, u);
      steps, t := [step] + b, u;
    }
  }

  lemma Boot(l: Layout, base: seq<Block>, s: State) returns (steps: seq<Step>, t: State)
    requires Init(l, base, s)
    ensures Path(l, s, steps, t) && Inv(l, base, t) && Fresh(t, 0) && t.stable == 0
  {
    InitInv(l, base, s);
    steps, t := FinishRecovery(l, base, s);
  }

  /** The first l.size blocks outside the log. */
  function Outside(l: Layout): (hs: seq<nat>) {
    seq(l.size, i requires 0 <= i < l.size => if i < l.start then i else i + l.size)
  }

  lemma OutsideIsListable(l: Layout)
    requires 2 * l.size <= l.blocks
    ensures |Outside(l)| == l.size && Listable(l, Outside(l))
  {
  }

  /** From any boot of a log that is too short, modest operations reach the panic. */
  lemma BootPanics(l: Layout, base: seq<Block>, s: State) returns (steps: seq<Step>, t: State)
    requires Init(l, base, s) && l.size <= LOGSIZE && 2 * l.size <= l.blocks
    ensures Path(l, s, steps, t)
    ensures 2 in t.active && t.active[2] < MAXOPBLOCKS && LogWritePanics(l, t)
  {
    hide Outside, Listable, Path, Inv, Init;
    OutsideIsListable(l);
    var a, m := Boot(l, base, s);
    var b, u := SmallLogPanics(l, base, m, Outside(l), 0);
    Then(l, s, a, m, b, u);
    steps, t := a + b, u;
  }

  /** And from any boot others reach the write over the home block after the log, with no operation
      durable: any `data` but what that block held then survives a crash. */
  lemma BootOverflows(l: Layout, base: seq<Block>, s: State, data: Block) returns (steps: seq<Step>, t: State)
    requires Init(l, base, s) && 2 <= l.size <= LOGSIZE && 2 * l.size <= l.blocks && l.start + l.size < l.blocks
    ensures Path(l, s, steps, t) && Overwrites(l, t, data) && t.stable == 0
  {
    hide Outside, Listable, Path, Inv, Init, Overwrites;
    OutsideIsListable(l);
    var a, m := Boot(l, base, s);
    var b, u := SmallLogOverflows(l, base, m, Outside(l), 0, data);
    Then(l, s, a, m, b, u);
    steps, t := a + b, u;
  }

  lemma BootOutgrown(l: Layout, base: seq<Block>, s: State) returns (steps: seq<Step>, t: State)
    requires Init(l, base, s) && 2 <= l.size <= LOGSIZE && 2 * l.size <= l.blocks
    ensures Path(l, s, steps, t) && !Fitting(l, s, steps)
  {
    hide Outside, Path, Listable, Outgrown;
    OutsideIsListable(l);
    var a, m := Boot(l, base, s);
    var b, u := SmallLogOutgrown(l, base, m, Outside(l), 0, ZeroBlock());
    Then(l, s, a, m, b, u);
    steps, t := a + b, u;
    InitInv(l, base, s);
    TooLong(l, base, s, steps, t, Outside(l));
  }

  lemma TooLong(l: Layout, base: seq<Block>, s: State, steps: seq<Step>, t: State, hs: seq<nat>)
    requires Inv(l, base, s) && Path(l, s, steps, t) && Outgrown(l, t, hs, 0, ZeroBlock())
    ensures !Fitting(l, s, steps)
  {
    if Fitting(l, s, steps) {
      RunInv(l, base, s, steps, t);
    }
  }

  // ---- exactly which logs are long enough ----

  /** Operations that have entries left are not refused. */
  predicate Unrefused(l: Layout, t: State) {
    forall op :: op in t.active && t.active[op] < MAXOPBLOCKS ==> !LogWritePanics(l, t)
  }

  /** No run of modest operations outgrows the log. */
  ghost predicate NeverOutgrown(l: Layout) {
    forall base, s, steps, t :: Init(l, base, s) && Path(l, s, steps, t) ==> Fitting(l, s, steps)
  }

  /** No run of modest operations outgrows the log or is refused by log_write. */
  ghost predicate LongEnough(l: Layout) {
    forall base, s, steps, t :: Init(l, base, s) && Path(l, s, steps, t) ==> Fitting(l, s, steps) && Unrefused(l, t)
  }

  /** A log of one block takes no entry at all. */
  lemma {:induction false} OneBlock(l: Layout, s: State, steps: seq<Step>, t: State)
    requires l.size == 1 && s.checked == {} && Path(l, s, steps, t)
    ensures Fitting(l, s, steps)
    decreases |steps|
  {
    if steps != [] {
      OneBlock(l, Next(l, s, steps[0]), steps[1..], t);
    }
  }

  /** The empty disk, and the state its recovery starts in. */
  lemma Blank(l: Layout) returns (base: seq<Block>, s: State)
    requires Fits(l)
    ensures Init(l, base, s)
  {
    base := seq(l.blocks, _ => ZeroBlock());
    s := State(Disk([], base), base, [], 0, Recovering(0), map[], {}, {}, [], 0);
  }

  lemma LongEnoughFits(l: Layout, base: seq<Block>, s: State, steps: seq<Step>, t: State)
    requires l.size > LOGSIZE && Init(l, base, s) && Path(l, s, steps, t)
    ensures Fitting(l, s, steps) && Unrefused(l, t)
  {
    InitInv(l, base, s);
    ReservationsSuffice(l, base, s, steps, t);
  }

  /** On a device with room for as many home blocks as log blocks, the reservations of begin_op are
      enough if and only if the log has more than LOGSIZE blocks; mkfs gives it LOGSIZE. */
  lemma ExactLength(l: Layout)
    requires Fits(l) && 2 * l.size <= l.blocks
    ensures LongEnough(l) <==> l.size > LOGSIZE
  {
    if l.size > LOGSIZE {
      forall base, s, steps, t | Init(l, base, s) && Path(l, s, steps, t)
        ensures Fitting(l, s, steps) && Unrefused(l, t)
      {
        LongEnoughFits(l, base, s, steps, t);
      }
    } else {
      var base, s := Blank(l);
      hide Init, Path, Fitting;
      var steps, t := BootPanics(l, base, s);
      assert !Unrefused(l, t);
    }
  }

  /** The list stays within the log in every such run if and only if the log is that long, or so
      short that every log_write panics. */
  lemma ExactFit(l: Layout)
    requires Fits(l) && 2 * l.size <= l.blocks
    ensures NeverOutgrown(l) <==> l.size > LOGSIZE || l.size == 1
  {
    if l.size > LOGSIZE || l.size == 1 {
      forall base, s, steps, t | Init(l, base, s) && Path(l, s, steps, t)
        ensures Fitting(l, s, steps)
      {
        if l.size == 1 {
          OneBlock(l, s, steps, t);
        } else {
          LongEnoughFits(l, base, s, steps, t);
        }
      }
    } else {
      var base, s := Blank(l);
      hide Init, Path, Fitting;
      var steps, t := BootOutgrown(l, base, s);
    }
  }
}
