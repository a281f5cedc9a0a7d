/** The kernel core refines the promised machine: relocation, slot shifts, saved contexts and the
    16-entry queues are invisible to every process, over whole runs. */
module Refinement {
  import opened Base
  import opened Memory
  import opened Processes
  import opened Machine
  import opened Invariant
  import opened AbstractMachine

  predicate OnCpu(s: State, i: int) {
    !s.parked && i == s.cur
  }

  /** The bytes of a process's block. */
  function Private(ram: seq<byte>, p: Process): seq<byte> {
    if 0 <= p.memStart && 0 <= p.memSize && p.memStart + p.memSize <= |ram|
    then ram[p.memStart..p.memStart + p.memSize] else []
  }

  /** What the process in slot i can observe of itself. */
  function View(s: State, i: int): VProc
    requires 0 <= i < |s.table|
  {
    VProc(Private(s.heap.ram, s.table[i]),
          NoEbp(if OnCpu(s, i) then s.cpu else Cpu(s.table[i].regs, s.table[i].pcLoc)),
          Inbox(s.table[i]),
          s.table[i].waiting)
  }

  /** The pending SC_GETUINPUT names a waiting process, and a buffer inside its block with room for
      the characters typed. */
  ghost predicate Aimed(s: State) {
    && s.count <= |s.table|
    && s.input.waiting
    && 1 <= s.input.slot < s.count
    && s.table[s.input.slot].waiting
    && s.table[s.input.slot].memStart <= s.input.loc
    && 0 <= s.input.pos < s.input.size
    && s.input.loc + s.input.size <= s.table[s.input.slot].memStart + s.table[s.input.slot].memSize
  }

  ghost function PendingOf(s: State): Option<Pending> {
    if Aimed(s) then
      var p := s.table[s.input.slot];
      Some(Pending(p.pid, s.input.loc - p.memStart, s.input.size, s.input.pos))
    else None
  }

  /** The live PIDs and their views, slot by slot. Slot 0, the kernel's own process, is never
      scheduled and cannot be found by PID. */
  ghost function Pids(s: State): (r: seq<int>)
    requires Shape(s)
    ensures |r| == s.count - 1
  {
    seq(s.count - 1, k requires 0 <= k < s.count - 1 => s.table[k + 1].pid)
  }

  ghost function Views(s: State): (r: seq<VProc>)
    requires Shape(s)
    ensures |r| == s.count - 1
  {
    seq(s.count - 1, k requires 0 <= k < s.count - 1 => View(s, k + 1))
  }

  ghost function Abs(s: State): AState
    requires Shape(s)
  {
    AState(Zip(Pids(s), Views(s)), if User(s) then Some(s.table[s.cur].pid) else None,
           Fresh(s), PendingOf(s), s.input.pos)
  }

  // ---------- maps from two parallel sequences ----------

  ghost predicate Increasing(xs: seq<int>) {
    forall i, j :: 0 <= i < j < |xs| ==> xs[i] < xs[j]
  }

  function Position(xs: seq<int>, x: int): (i: int)
    requires x in xs
    ensures 0 <= i < |xs| && xs[i] == x
  {
    if xs[0] == x then 0 else 1 + Position(xs[1..], x)
  }

  ghost function Zip(xs: seq<int>, vs: seq<VProc>): map<int, VProc>
    requires |xs| == |vs|
  {
    map x | x in xs :: vs[Position(xs, x)]
  }

  lemma ZipAt(xs: seq<int>, vs: seq<VProc>, i: int)
    requires |xs| == |vs| && Increasing(xs) && 0 <= i < |xs|
    ensures xs[i] in Zip(xs, vs) && Zip(xs, vs)[xs[i]] == vs[i]
  {
    assert xs[i] in xs;
    assert xs[Position(xs, xs[i])] == xs[i];
  }

  /** Zip is the only map that agrees with the sequences. */
  lemma ZipIs(xs: seq<int>, vs: seq<VProc>, m: map<int, VProc>)
    requires |xs| == |vs|
    requires forall x :: x in m <==> x in xs
    requires forall i :: 0 <= i < |xs| ==> xs[i] in m && m[xs[i]] == vs[i]
    ensures Zip(xs, vs) == m
  {
    var z := Zip(xs, vs);
    forall x | x in m
      ensures x in z && z[x] == m[x]
    {
      var i := Position(xs, x);
      assert xs[i] == x;
    }
    assert z.Keys == m.Keys;
  }

  lemma ZipUpdate(xs: seq<int>, vs: seq<VProc>, i: int, v: VProc)
    requires |xs| == |vs| && Increasing(xs) && 0 <= i < |xs|
    ensures Zip(xs, vs[i := v]) == Zip(xs, vs)[xs[i] := v]
  {
    forall j | 0 <= j < |xs|
      ensures xs[j] in Zip(xs, vs) && Zip(xs, vs)[xs[i] := v][xs[j]] == vs[i := v][j]
    {
      ZipAt(xs, vs, j);
    }
    ZipIs(xs, vs[i := v], Zip(xs, vs)[xs[i] := v]);
  }

  lemma ZipAppend(xs: seq<int>, vs: seq<VProc>, x: int, v: VProc)
    requires |xs| == |vs| && Increasing(xs + [x])
    ensures x !in Zip(xs, vs)
    ensures Zip(xs + [x], vs + [v]) == Zip(xs, vs)[x := v]
  {
    var xs', vs' := xs + [x], vs + [v];
    assert xs'[|xs|] == x;
    forall j | 0 <= j < |xs|
      ensures xs[j] != x && Zip(xs, vs)[x := v][xs'[j]] == vs'[j]
    {
      assert xs'[j] == xs[j] < xs'[|xs|];
      assert Increasing(xs) by {
        forall p, q | 0 <= p < q < |xs| ensures xs[p] < xs[q] { assert xs'[p] < xs'[q]; }
      }
      ZipAt(xs, vs, j);
    }
    ZipIs(xs', vs', Zip(xs, vs)[x := v]);
  }

  lemma ZipRemove(xs: seq<int>, vs: seq<VProc>, i: int)
    requires |xs| == |vs| && Increasing(xs) && 0 <= i < |xs|
    ensures Zip(xs[..i] + xs[i + 1..], vs[..i] + vs[i + 1..]) == Zip(xs, vs) - {xs[i]}
  {
    var xs', vs' := xs[..i] + xs[i + 1..], vs[..i] + vs[i + 1..];
    var m := Zip(xs, vs) - {xs[i]};
    assert forall x :: x in m <==> x in xs' by { RemovedMembers(xs, i); }
    forall j | 0 <= j < |xs'|
      ensures xs'[j] in m && m[xs'[j]] == vs'[j]
    {
      var k := if j < i then j else j + 1;
      assert xs'[j] == xs[k] && vs'[j] == vs[k];
      assert xs'[j] in xs';
      ZipAt(xs, vs, k);
    }
    ZipIs(xs', vs', m);
  }

  lemma RemovedMembers(xs: seq<int>, i: int)
    requires Increasing(xs) && 0 <= i < |xs|
    ensures forall x :: x in xs[..i] + xs[i + 1..] <==> x in xs && x != xs[i]
  {
    var xs' := xs[..i] + xs[i + 1..];
    forall x | x in xs'
      ensures x in xs && x != xs[i]
    {
      var j := Position(xs', x);
      assert x == if j < i then xs[j] else xs[j + 1];
    }
    forall x | x in xs && x != xs[i]
      ensures x in xs'
    {
      var j := Position(xs, x);
      assert xs'[if j < i then j else j - 1] == x;
    }
  }

  lemma PidsIncrease(s: State)
    requires Shape(s) && PidsOk(s.table, s.count, Fresh(s))
    ensures Increasing(Pids(s))
    ensures forall pid :: pid in Pids(s) <==> IndexOf(s.table, s.count, pid) != -1
  {
    forall i, j | 0 <= i < j < |Pids(s)| ensures Pids(s)[i] < Pids(s)[j] {
      assert Older(s.table[i + 1], s.table[j + 1]);
    }
    forall pid
      ensures pid in Pids(s) <==> IndexOf(s.table, s.count, pid) != -1
    {
      var i := IndexOf(s.table, s.count, pid);
      if i != -1 { assert Pids(s)[i - 1] == pid; }
      if pid in Pids(s) { var k := Position(Pids(s), pid); assert s.table[k + 1].pid == pid; }
    }
  }

  /** The abstract process of a slot. */
  lemma ProcAt(s: State, i: int)
    requires Shape(s) && PidsOk(s.table, s.count, Fresh(s)) && 1 <= i < s.count
    ensures s.table[i].pid in Abs(s).procs && Abs(s).procs[s.table[i].pid] == View(s, i)
  {
    PidsIncrease(s);
    ZipAt(Pids(s), Views(s), i - 1);
  }

  lemma PidsUnchanged(s: State, s': State)
    requires Shape(s) && Shape(s') && s'.count == s.count
    requires forall k :: 1 <= k < s.count ==> s'.table[k].pid == s.table[k].pid
    ensures Pids(s') == Pids(s)
  {
  }

  lemma ViewsUpdate(s: State, s': State, i: int)
    requires Shape(s) && Shape(s') && s'.count == s.count && 1 <= i < s.count
    requires forall k :: 1 <= k < s.count && k != i ==> View(s', k) == View(s, k)
    ensures Views(s') == Views(s)[i - 1 := View(s', i)]
  {
    forall j | 0 <= j < s.count - 1 && j != i - 1 ensures Views(s')[j] == Views(s)[j] {
      assert View(s', j + 1) == View(s, j + 1);
    }
  }

  /** One slot's view changed. */
  lemma ProcsUpdate(s: State, s': State, i: int)
    requires Shape(s) && PidsOk(s.table, s.count, Fresh(s)) && Shape(s') && s'.count == s.count
    requires 1 <= i < s.count
    requires forall k :: 1 <= k < s.count ==> s'.table[k].pid == s.table[k].pid
    requires forall k :: 1 <= k < s.count && k != i ==> View(s', k) == View(s, k)
    ensures Abs(s').procs == Abs(s).procs[s.table[i].pid := View(s', i)]
  {
    PidsIncrease(s);
    PidsUnchanged(s, s');
    ViewsUpdate(s, s', i);
    ZipUpdate(Pids(s), Views(s), i - 1, View(s', i));
    assert Pids(s)[i - 1] == s.table[i].pid;
  }

  lemma ProcsSame(s: State, s': State)
    requires Shape(s) && Shape(s') && s'.count == s.count
    requires forall k :: 1 <= k < s.count ==> s'.table[k].pid == s.table[k].pid
    requires forall k :: 1 <= k < s.count ==> View(s', k) == View(s, k)
    ensures Abs(s').procs == Abs(s).procs
  {
    PidsUnchanged(s, s');
    assert Views(s') == Views(s);
  }

  // ---------- the timer ----------

  lemma TimerView(s: State, k: int)
    requires Shape(s) && s.saveRegs == !s.parked && SomeReady(s.table, s.count) && 0 <= k < s.count
    ensures View(Timer(s), k) == View(s, k) && Timer(s).table[k].pid == s.table[k].pid
  {
  }

  lemma TimerPending(s: State)
    requires Shape(s) && SomeReady(s.table, s.count)
    ensures PendingOf(Timer(s)) == PendingOf(s)
  {
  }

  /** Saving one process's registers and loading another's changes no process's view. */
  lemma TimerRefines(s: State)
    requires Shape(s) && s.saveRegs == !s.parked && SomeReady(s.table, s.count)
    requires PidsOk(s.table, s.count, Fresh(s))
    ensures Switched(Abs(s), Abs(Timer(s)))
  {
    var s' := Timer(s);
    forall k | 0 <= k < s.count ensures View(s', k) == View(s, k) && s'.table[k].pid == s.table[k].pid {
      TimerView(s, k);
    }
    ProcsSame(s, s');
    ProcAt(s, s'.cur);
    TimerPending(s);
  }

  // ---------- steps of the running process ----------

  lemma Apart(s: State, i: int, k: int)
    requires Lockstep(s.heap, s.table, s.count) && 0 <= i < k < s.count
    ensures s.table[i].memStart + s.table[i].memSize <= s.table[k].memStart
  {
    assert Mirrors(s.heap.list[i + 2], s.table[i]) && Mirrors(s.heap.list[k + 2], s.table[k]);
    BlocksOrdered(s.heap, i + 2, k + 2);
  }

  lemma SpliceInside(ram: seq<byte>, at: int, bytes: seq<byte>, p: Process)
    requires 0 <= p.memStart <= at && at + |bytes| <= p.memStart + p.memSize <= |ram|
    ensures Private(Splice(ram, at, bytes), p) == Splice(Private(ram, p), at - p.memStart, bytes)
  {
  }

  lemma SpliceOutside(ram: seq<byte>, at: int, bytes: seq<byte>, p: Process)
    requires 0 <= at && at + |bytes| <= |ram|
    requires p.memStart + p.memSize <= at || at + |bytes| <= p.memStart
    ensures Private(Splice(ram, at, bytes), p) == Private(ram, p)
  {
  }

  /** A write inside one block is seen by its owner and by nobody else. */
  lemma OwnWrite(s: State, i: int, at: int, bytes: seq<byte>)
    requires Lockstep(s.heap, s.table, s.count) && 0 <= i < s.count
    requires s.table[i].memStart <= at && at + |bytes| <= s.table[i].memStart + s.table[i].memSize
    ensures 0 <= at && at + |bytes| <= |s.heap.ram|
    ensures |Private(s.heap.ram, s.table[i])| == s.table[i].memSize
    ensures Private(Splice(s.heap.ram, at, bytes), s.table[i])
         == Splice(Private(s.heap.ram, s.table[i]), at - s.table[i].memStart, bytes)
    ensures forall k :: 0 <= k < s.count && k != i ==>
              Private(Splice(s.heap.ram, at, bytes), s.table[k]) == Private(s.heap.ram, s.table[k])
  {
    OwnBlockInRam(s, i);
    SpliceInside(s.heap.ram, at, bytes, s.table[i]);
    forall k | 0 <= k < s.count && k != i
      ensures Private(Splice(s.heap.ram, at, bytes), s.table[k]) == Private(s.heap.ram, s.table[k])
    {
      if k < i { Apart(s, k, i); } else { Apart(s, i, k); }
      SpliceOutside(s.heap.ram, at, bytes, s.table[k]);
    }
  }

  /** Two states that differ at most in bytes, registers and queues. */
  ghost predicate SamePlaces(s: State, s': State)
    requires Shape(s)
  {
    && Shape(s') && s'.count == s.count && s'.cur == s.cur && s'.parked == s.parked && s'.tick == s.tick
    && s'.input == s.input
    && forall k :: 0 <= k < PROCESS_SLOTS ==>
         && s'.table[k].pid == s.table[k].pid && s'.table[k].waiting == s.table[k].waiting
         && s'.table[k].memStart == s.table[k].memStart && s'.table[k].memSize == s.table[k].memSize
  }

  lemma SamePending(s: State, s': State)
    requires Shape(s) && SamePlaces(s, s')
    ensures PendingOf(s') == PendingOf(s) && Fresh(s') == Fresh(s)
  {
    if 0 <= s.input.slot < PROCESS_SLOTS {
      assert s'.table[s.input.slot].waiting == s.table[s.input.slot].waiting;
    }
  }

  lemma SlotStep(s: State, s': State, i: int)
    requires Shape(s) && PidsOk(s.table, s.count, Fresh(s)) && 1 <= i < s.count && s.cur < PROCESS_SLOTS
    requires SamePlaces(s, s')
    requires forall k :: 1 <= k < s.count && k != i ==> View(s', k) == View(s, k)
    ensures s.table[i].pid in Abs(s).procs && Abs(s).procs[s.table[i].pid] == View(s, i)
    ensures Abs(s') == Abs(s).(procs := Abs(s).procs[s.table[i].pid := View(s', i)])
  {
    ProcAt(s, i);
    ProcsUpdate(s, s', i);
    SamePending(s, s');
  }

  lemma RunnerStep(s: State, s': State)
    requires Shape(s) && PidsOk(s.table, s.count, Fresh(s)) && User(s) && s.cur < s.count
    requires SamePlaces(s, s')
    requires forall k :: 1 <= k < s.count && k != s.cur ==> View(s', k) == View(s, k)
    ensures Runs(Abs(s)) && Abs(s).procs[Abs(s).running.value] == View(s, s.cur)
    ensures OnlyRunner(Abs(s), View(s', s.cur), Abs(s'))
  {
    SlotStep(s, s', s.cur);
  }

  lemma ReturnRefines(s: State, result: int)
    requires Shape(s) && PidsOk(s.table, s.count, Fresh(s)) && User(s) && s.cur < s.count
    ensures Runs(Abs(s)) && Abs(s).procs[Abs(s).running.value] == View(s, s.cur)
    ensures OnlyRunner(Abs(s), WithEax(View(s, s.cur), result), Abs(Return(s, result)))
  {
    RunnerStep(s, Return(s, result));
  }

  lemma ComputeRefines(s: State, cpu: Cpu)
    requires Shape(s) && PidsOk(s.table, s.count, Fresh(s)) && User(s) && s.cur < s.count
    ensures AStep(Abs(s), Compute(cpu), Abs(s.(cpu := cpu)))
  {
    RunnerStep(s, s.(cpu := cpu));
  }

  lemma StoreRefines(s: State, off: int, bytes: seq<byte>)
    requires Inv(s) && User(s) && Inside(s, off, |bytes|)
    ensures AStep(Abs(s), Store(off, bytes), Abs(Step(s, Store(off, bytes))))
  {
    var s' := Step(s, Store(off, bytes));
    OwnBlockInRam(s, s.cur);
    WrittenViews(s, s, off, bytes, s');
    RunnerStep(s, s');
    StoreIntro(Abs(s), View(s, s.cur), off, bytes, Abs(s'));
  }

  lemma StoreIntro(a: AState, me: VProc, off: int, bytes: seq<byte>, a': AState)
    requires Runs(a) && a.procs[a.running.value] == me && 0 <= off && off + |bytes| <= |me.mem|
    requires OnlyRunner(a, me.(mem := Splice(me.mem, off, bytes)), a')
    ensures AStep(a, Store(off, bytes), a')
  {
  }

  lemma IsRunningRefines(s: State, pid: int)
    requires Inv(s) && User(s)
    ensures AStep(Abs(s), IsRunning(pid), Abs(Step(s, IsRunning(pid))))
  {
    PidsIncrease(s);
    ReturnRefines(s, if IndexOf(s.table, s.count, pid) == -1 then 0 else 1);
  }

  // ---------- exit and spawn: blocks and slots move ----------

  /** Relocation is invisible: a surviving process finds the same bytes in its moved block. */
  lemma FreePrivate(h: Heap, table: seq<Process>, count: int, i: int, k: int)
    requires Lockstep(h, table, count) && 1 <= i < count && 1 <= k < count && k != i
    ensures var k' := if k < i then k else k - 1;
            Private(Free(h, table[i].memStart).ram, TableWithout(table, i, count)[k']) == Private(h.ram, table[k])
  {
    assert Mirrors(h.list[i + 2], table[i]) && Mirrors(h.list[k + 2], table[k]);
    FreeKeepsBlocks(h, i + 2, k + 2);
    var h', k' := Free(h, table[i].memStart), if k < i then k + 2 else k + 1;
    PrivateIsBlock(h, k + 2, table[k]);
    PrivateIsBlock(h', k', TableWithout(table, i, count)[if k < i then k else k - 1]);
  }

  lemma PrivateIsBlock(h: Heap, k: int, p: Process)
    requires 0 <= k < h.index <= |h.list| && 0 <= p.memStart && 0 <= p.memSize && p.memStart + p.memSize <= |h.ram|
    requires p.memStart == h.list[k].startAddr && p.memSize == h.list[k].size
    ensures Private(h.ram, p) == Block(h, k)
  {
  }

  /** A process other than the dying one keeps its view through the slide of RAM and table. */
  lemma ExitView(s: State, k: int)
    requires Shape(s) && Lockstep(s.heap, s.table, s.count)
    requires PidsOk(s.table, s.count, Fresh(s)) && SlotsOk(s.table, s.count)
    requires User(s) && s.cur < s.count && 1 <= k < s.count && k != s.cur
    ensures var s' := ExitCall(s); var k' := if k < s.cur then k else k - 1;
            View(s', k') == View(s, k) && s'.table[k'].pid == s.table[k].pid
  {
    KilledKeepsTables(s, s.cur);
    FreePrivate(s.heap, s.table, s.count, s.cur, k);
    var s' := ExitCall(s);
    var k' := if k < s.cur then k else k - 1;
    assert s'.table[k'] == if k < s.cur then s.table[k] else Lowered(s.table[k], s.table[s.cur].memSize);
    assert Inbox(s'.table[k']) == Inbox(s.table[k]);
  }

  lemma SequencesDropOne(s: State, s': State, i: int)
    requires Shape(s) && Shape(s') && s'.count == s.count - 1 && 1 <= i < s.count
    requires forall k :: 1 <= k < s.count && k != i ==>
               var k' := if k < i then k else k - 1;
               View(s', k') == View(s, k) && s'.table[k'].pid == s.table[k].pid
    ensures Pids(s') == Pids(s)[..i - 1] + Pids(s)[i..]
    ensures Views(s') == Views(s)[..i - 1] + Views(s)[i..]
  {
    forall j | 0 <= j < s'.count - 1
      ensures Pids(s')[j] == Pids(s)[if j < i - 1 then j else j + 1]
      ensures Views(s')[j] == Views(s)[if j < i - 1 then j else j + 1]
    {
      var k := if j < i - 1 then j + 1 else j + 2;
      assert View(s', j + 1) == View(s, k) && s'.table[j + 1].pid == s.table[k].pid;
    }
  }

  /** What an exit does to everything but the pending line. */
  ghost predicate ExitLeaves(a: AState, a': AState)
    requires Runs(a)
  {
    a' == a.(procs := a.procs - {a.running.value}, running := None, pending := a'.pending)
  }

  lemma ExitAbs(s: State, s': State)
    requires Shape(s) && PidsOk(s.table, s.count, Fresh(s)) && User(s) && s.cur < s.count
    requires Shape(s') && s'.count == s.count - 1 && s'.parked && s'.tick == s.tick && s'.input == s.input
    requires forall k :: 1 <= k < s.count && k != s.cur ==>
               var k' := if k < s.cur then k else k - 1;
               View(s', k') == View(s, k) && s'.table[k'].pid == s.table[k].pid
    ensures Runs(Abs(s)) && ExitLeaves(Abs(s), Abs(s'))
  {
    ProcAt(s, s.cur);
    ExitProcs(s, s');
  }

  lemma ExitProcs(s: State, s': State)
    requires Shape(s) && PidsOk(s.table, s.count, Fresh(s)) && 1 <= s.cur < s.count
    requires Shape(s') && s'.count == s.count - 1
    requires forall k :: 1 <= k < s.count && k != s.cur ==>
               var k' := if k < s.cur then k else k - 1;
               View(s', k') == View(s, k) && s'.table[k'].pid == s.table[k].pid
    ensures Abs(s').procs == Abs(s).procs - {s.table[s.cur].pid}
  {
    SequencesDropOne(s, s', s.cur);
    PidsIncrease(s);
    ZipRemove(Pids(s), Views(s), s.cur - 1);
    assert Pids(s)[s.cur - 1] == s.table[s.cur].pid;
  }

  lemma ExitShape(s: State)
    requires Shape(s) && Lockstep(s.heap, s.table, s.count)
    requires PidsOk(s.table, s.count, Fresh(s)) && SlotsOk(s.table, s.count)
    requires User(s) && s.cur < s.count
    ensures var s' := ExitCall(s);
            Shape(s') && s'.count == s.count - 1 && s'.parked && s'.tick == s.tick && s'.input == s.input
  {
    KilledKeepsTables(s, s.cur);
  }

  lemma ExitShows(s: State)
    requires Shape(s) && Lockstep(s.heap, s.table, s.count)
    requires PidsOk(s.table, s.count, Fresh(s)) && SlotsOk(s.table, s.count)
    requires User(s) && s.cur < s.count
    ensures Shape(ExitCall(s)) && Runs(Abs(s)) && ExitLeaves(Abs(s), Abs(ExitCall(s)))
  {
    ExitShape(s);
    forall k | 1 <= k < s.count && k != s.cur
      ensures var s' := ExitCall(s); var k' := if k < s.cur then k else k - 1;
              View(s', k') == View(s, k) && s'.table[k'].pid == s.table[k].pid
    {
      ExitView(s, k);
    }
    ExitAbs(s, ExitCall(s));
  }

  /** An exit in a higher slot leaves the pending line where it is; one in a lower slot, which is the
      exit of an older process, does not. */
  lemma ExitPending(s: State)
    requires Shape(s) && Lockstep(s.heap, s.table, s.count)
    requires PidsOk(s.table, s.count, Fresh(s)) && SlotsOk(s.table, s.count) && CpuOk(s)
    requires User(s) && Aimed(s)
    ensures s.input.slot != s.cur
    ensures s.cur < s.input.slot <==> s.table[s.cur].pid < s.table[s.input.slot].pid
    ensures s.input.slot < s.cur ==> PendingOf(ExitCall(s)) == PendingOf(s)
  {
    KilledKeepsTables(s, s.cur);
    var i, j := s.cur, s.input.slot;
    if j < i { assert Older(s.table[j], s.table[i]); } else { assert Older(s.table[i], s.table[j]); }
  }

  /** A new process sees its image, then whatever its stack bytes held. */
  lemma SpawnedViews(s: State, image: seq<byte>) returns (residue: seq<byte>)
    requires Inv(s) && s.count < PROCESS_SLOTS && ImageOk(image) && Spawned(s, image).Some?
    requires !s.parked
    ensures var s' := Spawned(s, image).value;
            && |residue| == STACK_BYTES
            && (forall k :: 1 <= k < s.count ==> View(s', k) == View(s, k) && s'.table[k].pid == s.table[k].pid)
            && View(s', s.count) == Newborn(image, residue)
  {
    var s' := Spawned(s, image).value;
    var h := Alloc(s.heap, |image| + STACK_BYTES).value;
    SmallSum(s.heap, |image| + STACK_BYTES);
    AllocKeepsInv(s.heap, |image| + STACK_BYTES);
    HeapEndBound(h);
    var end := HeapEnd(s.heap);
    residue := s.heap.ram[end + |image|..end + |image| + STACK_BYTES];
    forall k | 1 <= k < s.count
      ensures View(s', k) == View(s, k)
    {
      OwnBlockInRam(s, k);
      SpliceOutside(s.heap.ram, end, image, s.table[k]);
    }
    OwnBlockInRam(s, 0);
    assert Private(s'.heap.ram, s'.table[s.count]) == image + residue;
  }

  lemma SpawnedPending(s: State, s1: State)
    requires 0 <= s.count < |s.table| && s1.count == s.count + 1 && s1.input == s.input
    requires exists p :: s1.table == s.table[s.count := p] && !p.waiting
    ensures PendingOf(s1) == PendingOf(s)
  {
  }

  lemma SpawnedAbs(s: State, image: seq<byte>) returns (residue: seq<byte>)
    requires Inv(s) && User(s) && s.count < PROCESS_SLOTS && ImageOk(image) && Spawned(s, image).Some?
    ensures var s1 := Spawned(s, image).value; var a := Abs(s);
            && Shape(s1) && PidsOk(s1.table, s1.count, Fresh(s1)) && User(s1) && s1.cur == s.cur < s.count < s1.count
            && View(s1, s.cur) == View(s, s.cur)
            && |residue| == STACK_BYTES && a.nextPid !in a.procs
            && Abs(s1) == a.(
                 procs := a.procs[a.nextPid := Newborn(image, residue)],
                 nextPid := a.nextPid + 1)
  {
    var s1 := Spawned(s, image).value;
    SpawnedKeepsInv(s, image);
    residue := SpawnedViews(s, image);
    PidsIncrease(s1);
    assert Pids(s1) == Pids(s) + [Fresh(s)];
    assert Views(s1) == Views(s) + [View(s1, s.count)];
    ZipAppend(Pids(s), Views(s), Fresh(s), View(s1, s.count));
    SpawnedPending(s, s1);
  }

  /** Adding the newcomer and answering the caller commute. */
  lemma SpawnTwoWrites(a: AState, a1: AState, image: seq<byte>, residue: seq<byte>, a2: AState)
    requires Runs(a) && ImageOk(image) && |residue| == STACK_BYTES && a.nextPid !in a.procs
    requires a1 == a.(procs := a.procs[a.nextPid := Newborn(image, residue)],
                      nextPid := a.nextPid + 1)
    requires Runs(a1) && OnlyRunner(a1, WithEax(a.procs[a.running.value], a.nextPid), a2)
    ensures SpawnStep(a, image, residue, a2)
  {
  }

  lemma SpawnAcceptedRefines(s: State, image: seq<byte>)
    requires Inv(s) && User(s) && s.count < PROCESS_SLOTS && ImageOk(image)
    requires !Rejected(image) && Spawned(s, image).Some?
    ensures Runs(Abs(s))
    ensures exists residue :: SpawnStep(Abs(s), image, residue, Abs(SpawnCall(s, Some(image))))
  {
    var residue := SpawnSteps(s, image);
    assert SpawnCall(s, Some(image)) == Return(Spawned(s, image).value, Fresh(s));
  }

  lemma SpawnSteps(s: State, image: seq<byte>) returns (residue: seq<byte>)
    requires Inv(s) && User(s) && s.count < PROCESS_SLOTS && ImageOk(image) && Spawned(s, image).Some?
    ensures Runs(Abs(s)) && Shape(Spawned(s, image).value)
    ensures SpawnStep(Abs(s), image, residue, Abs(Return(Spawned(s, image).value, Fresh(s))))
  {
    var s1 := Spawned(s, image).value;
    residue := SpawnedAbs(s, image);
    ProcAt(s, s.cur);
    ReturnRefines(s1, Fresh(s));
    SpawnTwoWrites(Abs(s), Abs(s1), image, residue, Abs(Return(s1, Fresh(s))));
  }

  lemma SpawnRefines(s: State, file: Option<seq<byte>>)
    requires Inv(s) && Enabled(s, Spawn(file))
    ensures AStep(Abs(s), Spawn(file), Abs(SpawnCall(s, file)))
  {
    ReturnRefines(s, SRET_ERROR);
    if file.Some? && !Rejected(file.value) { SpawnAcceptedRefines(s, file.value); }
  }

  // ---------- messages ----------

  lemma AcceptsIffRoom(s: State, to: int)
    requires Shape(s) && PidsOk(s.table, s.count, Fresh(s)) && SlotsOk(s.table, s.count)
    ensures Accepts(s, to) <==> HasRoom(Abs(s), to)
  {
    PidsIncrease(s);
    var i := IndexOf(s.table, s.count, to);
    if i != -1 {
      ProcAt(s, i);
      assert |View(s, i).inbox| == s.table[i].queueSize;
    }
  }

  lemma EnqueueInbox(p: Process, m: Msg)
    requires 0 <= p.queueSize < |p.queue|
    ensures Inbox(Enqueued(p, m)) == Inbox(p) + [m]
  {
  }

  lemma DequeueInbox(p: Process)
    requires 0 < p.queueSize <= |p.queue|
    ensures Inbox(p) == [p.queue[0]] + Inbox(Dequeued(p))
  {
  }

  /** An accepted message is appended to the receiver's inbox, and that is all. */
  lemma DeliveredAbs(s: State, to: int, text: seq<byte>)
    requires Shape(s) && PidsOk(s.table, s.count, Fresh(s)) && SlotsOk(s.table, s.count) && Accepts(s, to)
    ensures var a := Abs(s); var s' := Delivered(s, to, text);
            && SamePlaces(s, s') && to in a.procs
            && Abs(s') == a.(procs := a.procs[to := Received(a.procs[to], Msg(s.table[s.cur].pid, text))])
  {
    var i := IndexOf(s.table, s.count, to);
    var s' := Delivered(s, to, text);
    EnqueueInbox(s.table[i], Msg(s.table[s.cur].pid, text));
    assert View(s', i) == Received(View(s, i), Msg(s.table[s.cur].pid, text));
    SlotStep(s, s', i);
  }

  lemma MouseRefines(s: State, owner: int, text: seq<byte>)
    requires Inv(s) && |text| == TEXT_BYTES
    ensures AStep(Abs(s), Mouse(owner, text), Abs(Step(s, Mouse(owner, text))))
  {
    AcceptsIffRoom(s, owner);
    if owner != 0 && Accepts(s, owner) { DeliveredAbs(s, owner, text); }
    assert MouseStep(Abs(s), owner, text, s.table[s.cur].pid, Abs(Step(s, Mouse(owner, text))));
  }

  lemma OwnBytes(s: State, off: int, n: int)
    requires Shape(s) && Lockstep(s.heap, s.table, s.count) && s.cur < s.count && Inside(s, off, n)
    ensures var at := s.table[s.cur].memStart + off; var m := Private(s.heap.ram, s.table[s.cur]);
            && 0 <= at && at + n <= |s.heap.ram| && |m| == s.table[s.cur].memSize
            && m[off..off + n] == s.heap.ram[at..at + n]
  {
    OwnBlockInRam(s, s.cur);
    SubSlice(s.heap.ram, s.table[s.cur].memStart, s.table[s.cur].memSize, off, n);
  }

  lemma SubSlice<T>(r: seq<T>, start: int, size: int, off: int, n: int)
    requires 0 <= start && 0 <= off && 0 <= n && off + n <= size && start + size <= |r|
    ensures r[start..start + size][off..off + n] == r[start + off..start + off + n]
  {
    var block := r[start..start + size];
    var inner, outer := block[off..off + n], r[start + off..start + off + n];
    forall o | 0 <= o < n ensures inner[o] == outer[o] {
      assert block[off + o] == r[start + off + o];
    }
  }

  /** Bytes of the runner's block change, by way of a state s1 that differs from s in queues only. */
  lemma WrittenViews(s: State, s1: State, off: int, bytes: seq<byte>, s2: State)
    requires Shape(s) && Lockstep(s.heap, s.table, s.count) && s.cur < s.count && User(s)
    requires SamePlaces(s, s1) && s1.heap == s.heap && Inside(s, off, |bytes|)
    requires var at := s.table[s.cur].memStart + off;
             && 0 <= at && at + |bytes| <= |s.heap.ram|
             && s2.heap.ram == Splice(s.heap.ram, at, bytes)
    requires s2.table == s1.table && s2.cur == s.cur && !s2.parked
    ensures forall k :: 0 <= k < s.count && k != s.cur ==> View(s2, k) == View(s1, k)
    ensures |View(s1, s.cur).mem| == s.table[s.cur].memSize && View(s1, s.cur).mem == View(s, s.cur).mem
    ensures View(s2, s.cur) == View(s1, s.cur).(mem := Splice(View(s1, s.cur).mem, off, bytes), cpu := NoEbp(s2.cpu))
  {
    BlocksWritten(s, off, bytes, s2.heap.ram);
    forall k | 0 <= k < s.count
      ensures View(s1, k).mem == Private(s.heap.ram, s.table[k])
      ensures View(s2, k) == View(s1, k).(mem := Private(s2.heap.ram, s.table[k]), cpu := View(s2, k).cpu)
      ensures View(s2, k).cpu == if k == s.cur then NoEbp(s2.cpu) else View(s1, k).cpu
    {
      SamePrivate(s.heap.ram, s.table[k], s1.table[k]);
      SamePrivate(s2.heap.ram, s.table[k], s1.table[k]);
    }
  }

  lemma SamePrivate(ram: seq<byte>, p: Process, p': Process)
    requires p'.memStart == p.memStart && p'.memSize == p.memSize
    ensures Private(ram, p') == Private(ram, p)
  {
  }

  lemma BlocksWritten(s: State, off: int, bytes: seq<byte>, ram: seq<byte>)
    requires Lockstep(s.heap, s.table, s.count) && 0 <= s.cur < s.count && Inside(s, off, |bytes|)
    requires var at := s.table[s.cur].memStart + off;
             0 <= at && at + |bytes| <= |s.heap.ram| && ram == Splice(s.heap.ram, at, bytes)
    ensures |Private(s.heap.ram, s.table[s.cur])| == s.table[s.cur].memSize
    ensures Private(ram, s.table[s.cur]) == Splice(Private(s.heap.ram, s.table[s.cur]), off, bytes)
    ensures forall k :: 0 <= k < s.count && k != s.cur ==>
              Private(ram, s.table[k]) == Private(s.heap.ram, s.table[k])
  {
    OwnWrite(s, s.cur, s.table[s.cur].memStart + off, bytes);
  }

  /** s2 is s1 with the runner's block overwritten at off and its eax set. */
  ghost predicate Replied(s: State, s1: State, off: int, bytes: seq<byte>, result: int, s2: State)
    requires Shape(s)
  {
    var at := s.table[s.cur].memStart + off;
    && 0 <= at && at + |bytes| <= |s.heap.ram|
    && s2.heap.ram == Splice(s.heap.ram, at, bytes)
    && s2.table == s1.table && s2.cpu == Return(s1, result).cpu
    && s2.count == s1.count && s2.cur == s1.cur && s2.tick == s1.tick && s2.parked == s1.parked && s2.input == s1.input
  }

  lemma ReplyRefines(s: State, s1: State, off: int, bytes: seq<byte>, result: int, s2: State)
    requires Shape(s) && Lockstep(s.heap, s.table, s.count) && PidsOk(s.table, s.count, Fresh(s))
    requires User(s) && s.cur < s.count && SamePlaces(s, s1) && s1.heap == s.heap
    requires Inside(s, off, |bytes|) && Replied(s, s1, off, bytes, result, s2)
    ensures Shape(s2) && Runs(Abs(s1)) && Abs(s1).procs[Abs(s1).running.value] == View(s1, s.cur)
    ensures |View(s, s.cur).mem| == s.table[s.cur].memSize && View(s1, s.cur).mem == View(s, s.cur).mem
    ensures var v := View(s1, s.cur);
            OnlyRunner(Abs(s1), WithEax(v.(mem := Splice(v.mem, off, bytes)), result), Abs(s2))
  {
    WrittenViews(s, s1, off, bytes, s2);
    SamePids(s.table, s1.table, s.count, Fresh(s));
    RunnerStep(s1, s2);
  }

  lemma SendRefines(s: State, off: int, to: int)
    requires Inv(s) && Enabled(s, Send(off, to))
    ensures AStep(Abs(s), Send(off, to), Abs(SendCall(s, off, to)))
  {
    OwnBlockInRam(s, s.cur);
    AcceptsIffRoom(s, to);
    ReturnRefines(s, SRET_ERROR);
    if off <= s.table[s.cur].memSize && Accepts(s, to) {
      SendAcceptedRefines(s, off, to);
    }
  }

  lemma OutgoingSeen(s: State, off: int)
    requires Shape(s) && Lockstep(s.heap, s.table, s.count) && s.cur < s.count && Inside(s, off, MESSAGE_BYTES)
    ensures var at := s.table[s.cur].memStart + off; var m := View(s, s.cur).mem;
            && 0 <= at && at + MESSAGE_BYTES <= |s.heap.ram| && |m| == s.table[s.cur].memSize
            && Outgoing(s, off) == m[off + 4..off + 4 + TEXT_BYTES]
  {
    OwnBytes(s, off + 4, TEXT_BYTES);
    OwnBlockInRam(s, s.cur);
  }

  lemma SendAcceptedRefines(s: State, off: int, to: int)
    requires Inv(s) && User(s) && Inside(s, off, MESSAGE_BYTES) && Accepts(s, to)
    ensures Runs(Abs(s)) && |Abs(s).procs[Abs(s).running.value].mem| == s.table[s.cur].memSize
    ensures SendStep(Abs(s), off, to, Abs(SendCall(s, off, to)))
  {
    OutgoingSeen(s, off);
    AcceptsIffRoom(s, to);
    SendReplies(s, off, to);
    SendReplyRefines(s, off, to, Outgoing(s, off), SendCall(s, off, to));
  }

  lemma SendReplyRefines(s: State, off: int, to: int, text: seq<byte>, s2: State)
    requires Shape(s) && Lockstep(s.heap, s.table, s.count) && PidsOk(s.table, s.count, Fresh(s))
    requires SlotsOk(s.table, s.count) && User(s) && s.cur < s.count
    requires Inside(s, off, MESSAGE_BYTES) && Accepts(s, to) && HasRoom(Abs(s), to)
    requires |View(s, s.cur).mem| == s.table[s.cur].memSize
    requires text == View(s, s.cur).mem[off + 4..off + 4 + TEXT_BYTES]
    requires Replied(s, Delivered(s, to, text), off, Le32(s.table[s.cur].pid), SRET_SUCCESS, s2)
    ensures Shape(s2) && Runs(Abs(s)) && Abs(s).procs[Abs(s).running.value] == View(s, s.cur)
    ensures SendStep(Abs(s), off, to, Abs(s2))
  {
    var s1 := Delivered(s, to, text);
    ProcAt(s, s.cur);
    DeliveredAbs(s, to, text);
    ReplyRefines(s, s1, off, Le32(s.table[s.cur].pid), SRET_SUCCESS, s2);
    SendTwoWrites(Abs(s), Abs(s1), View(s, s.cur), View(s1, s.cur), off, to, Abs(s2));
  }

  lemma SendReplies(s: State, off: int, to: int)
    requires Inv(s) && User(s) && Inside(s, off, MESSAGE_BYTES) && Accepts(s, to)
    ensures var at := s.table[s.cur].memStart + off;
            && 0 <= at && at + MESSAGE_BYTES <= |s.heap.ram|
            && Replied(s, Delivered(s, to, Outgoing(s, off)), off,
                       Le32(s.table[s.cur].pid), SRET_SUCCESS, SendCall(s, off, to))
  {
    OwnBlockInRam(s, s.cur);
  }

  lemma SendTwoWrites(a: AState, a1: AState, me: VProc, v: VProc, off: int, to: int, a2: AState)
    requires Runs(a) && a.procs[a.running.value] == me && HasRoom(a, to)
    requires 0 <= off && off + MESSAGE_BYTES <= |me.mem|
    requires a1 == a.(procs := a.procs[to := Received(a.procs[to],
                                       Msg(a.running.value, me.mem[off + 4..off + 4 + TEXT_BYTES]))])
    requires Runs(a1) && a1.procs[a.running.value] == v && v.mem == me.mem
    requires OnlyRunner(a1, WithEax(v.(mem := Splice(v.mem, off, Le32(a.running.value))), SRET_SUCCESS), a2)
    ensures SendStep(a, off, to, a2)
  {
  }

  lemma PopRefines(s: State, off: int)
    requires Inv(s) && Enabled(s, Pop(off))
    ensures AStep(Abs(s), Pop(off), Abs(PopCall(s, off)))
  {
    RunnerMem(s);
    if off <= s.table[s.cur].memSize && 0 < s.table[s.cur].queueSize {
      PopAcceptedRefines(s, off);
    } else {
      PopRefusedRefines(s, off);
    }
  }

  lemma PopRefusedRefines(s: State, off: int)
    requires Shape(s) && PidsOk(s.table, s.count, Fresh(s)) && User(s) && s.cur < s.count
    requires |View(s, s.cur).mem| == s.table[s.cur].memSize
    requires off > s.table[s.cur].memSize || s.table[s.cur].queueSize <= 0
    ensures Runs(Abs(s)) && PopStep(Abs(s), off, Abs(Return(s, SRET_ERROR)))
  {
    ReturnRefines(s, SRET_ERROR);
  }

  lemma DequeuedAbs(s: State)
    requires Shape(s) && PidsOk(s.table, s.count, Fresh(s)) && User(s) && s.cur < s.count
    requires 0 < s.table[s.cur].queueSize <= |s.table[s.cur].queue|
    ensures var s1 := s.(table := s.table[s.cur := Dequeued(s.table[s.cur])]);
            && SamePlaces(s, s1) && Runs(Abs(s))
            && Abs(s).procs[Abs(s).running.value] == View(s, s.cur)
            && View(s1, s.cur) == View(s, s.cur).(inbox := View(s, s.cur).inbox[1..])
            && OnlyRunner(Abs(s), View(s1, s.cur), Abs(s1))
  {
    var s1 := s.(table := s.table[s.cur := Dequeued(s.table[s.cur])]);
    DequeueInbox(s.table[s.cur]);
    DequeuedViews(s, s1);
    RunnerStep(s, s1);
  }

  lemma DequeuedViews(s: State, s1: State)
    requires Shape(s) && 0 < s.table[s.cur].queueSize <= |s.table[s.cur].queue|
    requires s1 == s.(table := s.table[s.cur := Dequeued(s.table[s.cur])])
    ensures SamePlaces(s, s1)
    ensures View(s1, s.cur) == View(s, s.cur).(inbox := Inbox(Dequeued(s.table[s.cur])))
    ensures forall k :: 0 <= k < PROCESS_SLOTS && k != s.cur ==> View(s1, k) == View(s, k)
  {
  }

  lemma PopAcceptedRefines(s: State, off: int)
    requires Inv(s) && User(s) && Inside(s, off, MESSAGE_BYTES) && 0 < s.table[s.cur].queueSize
    ensures Runs(Abs(s)) && PopStep(Abs(s), off, Abs(PopCall(s, off)))
  {
    var p := s.table[s.cur];
    assert MsgOk(p.queue[0]);
    DequeuedAbs(s);
    DequeueInbox(p);
    PopReplies(s, off);
    var s1 := s.(table := s.table[s.cur := Dequeued(p)]);
    ReplyRefines(s, s1, off, Le32(p.queue[0].fromPid) + p.queue[0].text, SRET_SUCCESS, PopCall(s, off));
    PopTwoWrites(Abs(s), Abs(s1), View(s, s.cur), off, p.queue[0], Abs(PopCall(s, off)));
  }

  lemma PopReplies(s: State, off: int)
    requires Inv(s) && User(s) && Inside(s, off, MESSAGE_BYTES) && 0 < s.table[s.cur].queueSize
    ensures var p := s.table[s.cur];
            Replied(s, s.(table := s.table[s.cur := Dequeued(p)]), off,
                    Le32(p.queue[0].fromPid) + p.queue[0].text, SRET_SUCCESS, PopCall(s, off))
  {
    OwnBlockInRam(s, s.cur);
    assert MsgOk(s.table[s.cur].queue[0]);
  }

  lemma PopTwoWrites(a: AState, a1: AState, v: VProc, off: int, m: Msg, a2: AState)
    requires Runs(a) && a.procs[a.running.value] == v && v.inbox != [] && v.inbox[0] == m
    requires OnlyRunner(a, v.(inbox := v.inbox[1..]), a1)
    requires 0 <= off && |m.text| == TEXT_BYTES && off + MESSAGE_BYTES <= |v.mem|
    requires OnlyRunner(a1, WithEax(v.(inbox := v.inbox[1..], mem := Splice(v.mem, off, Le32(m.fromPid) + m.text)),
                                    SRET_SUCCESS), a2)
    ensures PopStep(a, off, a2)
  {
  }

  // ---------- the keyboard ----------

  lemma GetInputRefines(s: State, off: int, size: int)
    requires Inv(s) && Enabled(s, GetInput(off, size))
    ensures Runs(Abs(s)) && GetInputStep(Abs(s), off, size, Abs(GetInputCall(s, off, size)))
  {
    RunnerMem(s);
    if off <= s.table[s.cur].memSize { GetInputBlocks(s, off, size); } else { GetInputRefused(s, off, size); }
  }

  lemma GetInputRefused(s: State, off: int, size: int)
    requires Shape(s) && PidsOk(s.table, s.count, Fresh(s)) && User(s) && s.cur < s.count
    requires |View(s, s.cur).mem| == s.table[s.cur].memSize < off
    ensures Runs(Abs(s)) && GetInputStep(Abs(s), off, size, Abs(Return(s, SRET_ERROR)))
  {
    ReturnRefines(s, SRET_ERROR);
  }

  lemma GetInputBlocks(s: State, off: int, size: int)
    requires Shape(s) && Lockstep(s.heap, s.table, s.count) && PidsOk(s.table, s.count, Fresh(s))
    requires User(s) && s.cur < s.count && s.saveRegs && 0 <= s.input.pos && Inside(s, off, size)
    requires SomeReady(Blocked(s, off, size).table, s.count)
    ensures Runs(Abs(s)) && GetInputStep(Abs(s), off, size, Abs(GetInputCall(s, off, size)))
  {
    OwnBlockInRam(s, s.cur);
    assert |View(s, s.cur).mem| == s.table[s.cur].memSize;
    BlockedSwitches(s, off, size);
  }

  lemma BlockedSwitches(s: State, off: int, size: int)
    requires Shape(s) && PidsOk(s.table, s.count, Fresh(s))
    requires User(s) && s.cur < s.count && s.saveRegs && 0 <= s.input.pos && Inside(s, off, size)
    requires SomeReady(Blocked(s, off, size).table, s.count)
    requires |View(s, s.cur).mem| == s.table[s.cur].memSize
    ensures Runs(Abs(s)) && GetInputStep(Abs(s), off, size, Abs(Timer(Blocked(s, off, size))))
  {
    BlockedAbs(s, off, size);
    BlockedPids(s, off, size);
    TimerRefines(Blocked(s, off, size));
    GetInputIntro(Abs(s), View(s, s.cur), off, size, Abs(Blocked(s, off, size)), Abs(Timer(Blocked(s, off, size))));
  }

  lemma GetInputIntro(a: AState, me: VProc, off: int, size: int, a1: AState, a2: AState)
    requires Runs(a) && a.procs[a.running.value] == me && off <= |me.mem|
    requires a1 == a.(procs := a.procs[a.running.value := me.(waiting := true)],
                      pending := if a.typed < size then Some(Pending(a.running.value, off, size, a.typed)) else None)
    requires Switched(a1, a2)
    ensures GetInputStep(a, off, size, a2)
  {
  }

  lemma BlockedPids(s: State, off: int, size: int)
    requires Shape(s) && PidsOk(s.table, s.count, Fresh(s))
    ensures PidsOk(Blocked(s, off, size).table, s.count, Fresh(s))
  {
    SamePids(s.table, Blocked(s, off, size).table, s.count, Fresh(s));
  }

  lemma BlockedAbs(s: State, off: int, size: int)
    requires Shape(s) && PidsOk(s.table, s.count, Fresh(s)) && User(s) && s.cur < s.count && Inside(s, off, size)
    requires 0 <= s.input.pos
    ensures var s1 := Blocked(s, off, size); var a := Abs(s);
            && Runs(a) && a.procs[a.running.value] == View(s, s.cur)
            && Abs(s1) == a.(procs := a.procs[a.running.value := View(s, s.cur).(waiting := true)],
                             pending := if a.typed < size then Some(Pending(a.running.value, off, size, a.typed))
                                        else None)
  {
    BlockedViews(s, off, size);
    BlockedPending(s, off, size);
    KeyedProcs(s, Blocked(s, off, size), s.cur);
  }

  lemma BlockedViews(s: State, off: int, size: int)
    requires Shape(s) && User(s)
    ensures var s1 := Blocked(s, off, size);
            && View(s1, s.cur) == View(s, s.cur).(waiting := true)
            && forall k :: 0 <= k < PROCESS_SLOTS && k != s.cur ==> View(s1, k) == View(s, k)
    ensures forall k :: 0 <= k < PROCESS_SLOTS ==> Blocked(s, off, size).table[k].pid == s.table[k].pid
  {
  }

  /** A fresh request is aimed at the caller, unless characters left over from an abandoned request
      already exceed its buffer. */
  lemma BlockedPending(s: State, off: int, size: int)
    requires Shape(s) && User(s) && s.cur < s.count && Inside(s, off, size) && 0 <= s.input.pos
    ensures PendingOf(Blocked(s, off, size))
         == if s.input.pos < size then Some(Pending(s.table[s.cur].pid, off, size, s.input.pos)) else None
  {
  }

  /** s' is s after a key: one byte of the pending buffer, the request and, when the line is done,
      the waiting flag have changed. */
  ghost predicate Keyed(s: State, at: int, c: byte, done: bool, s': State)
    requires Shape(s) && 0 <= s.input.loc + at < |s.heap.ram|
  {
    && Shape(s') && s'.heap.ram == s.heap.ram[s.input.loc + at := c]
    && s'.count == s.count && s'.cur == s.cur && s'.parked == s.parked && s'.tick == s.tick && s'.cpu == s.cpu
    && (forall k :: 0 <= k < PROCESS_SLOTS ==>
          s'.table[k] == if k == s.input.slot && done then s.table[k].(waiting := false) else s.table[k])
    && (if done then !s'.input.waiting && s'.input.pos == 0
        else s'.input == s.input.(pos := s'.input.pos) && 0 <= s'.input.pos < s.input.size)
  }

  lemma KeyedView(s: State, at: int, c: byte, done: bool, s': State)
    requires Shape(s) && Lockstep(s.heap, s.table, s.count) && Aimed(s) && 0 <= at < s.input.size
    requires 0 <= s.input.loc + at < |s.heap.ram| && Keyed(s, at, c, done, s')
    ensures var j := s.input.slot;
            var v := View(s, j); var o := s.input.loc - s.table[j].memStart + at;
            && 0 <= o < |v.mem|
            && View(s', j) == v.(mem := v.mem[o := c], waiting := v.waiting && !done)
            && forall k :: 0 <= k < s.count && k != j ==> View(s', k) == View(s, k)
  {
    var j := s.input.slot;
    OwnBlockInRam(s, j);
    OwnWrite(s, j, s.input.loc + at, [c]);
    assert Splice(s.heap.ram, s.input.loc + at, [c]) == s.heap.ram[s.input.loc + at := c];
    var v, o := View(s, j), s.input.loc - s.table[j].memStart + at;
    assert Splice(v.mem, o, [c]) == v.mem[o := c];
    assert Private(s'.heap.ram, s'.table[j]) == v.mem[o := c];
  }

  lemma KeyRefines(s: State, at: int, c: byte, done: bool, s': State)
    requires Shape(s) && Lockstep(s.heap, s.table, s.count) && PidsOk(s.table, s.count, Fresh(s))
    requires Aimed(s) && 0 <= at < s.input.size
    requires 0 <= s.input.loc + at < |s.heap.ram| && Keyed(s, at, c, done, s')
    ensures PendingOf(s).Some? && KeyStep(Abs(s), at, c, s'.input.pos, done, Abs(s'))
  {
    var j := s.input.slot;
    var off := s.input.loc - s.table[j].memStart;
    KeyedView(s, at, c, done, s');
    KeyedPending(s, at, c, done, s');
    KeyedAbs(s, s', j, off + at, at, c, done, Pending(s.table[j].pid, off, s.input.size, s.input.pos));
  }

  lemma KeyedPending(s: State, at: int, c: byte, done: bool, s': State)
    requires Shape(s) && Aimed(s) && 0 <= s.input.loc + at < |s.heap.ram| && Keyed(s, at, c, done, s')
    ensures var j := s.input.slot;
            var line := Pending(s.table[j].pid, s.input.loc - s.table[j].memStart, s.input.size, s.input.pos);
            && PendingOf(s) == Some(line)
            && PendingOf(s') == if done then None else Some(line.(pos := s'.input.pos))
  {
  }

  lemma KeyedAbs(s: State, s': State, j: int, o: int, at: int, c: byte, done: bool, line: Pending)
    requires Shape(s) && PidsOk(s.table, s.count, Fresh(s)) && Shape(s')
    requires s'.count == s.count && s'.cur == s.cur && s'.parked == s.parked && s'.tick == s.tick
    requires 1 <= j < s.count
    requires forall k :: 0 <= k < PROCESS_SLOTS ==> s'.table[k].pid == s.table[k].pid
    requires PendingOf(s) == Some(line) && line.pid == s.table[j].pid && line.off + at == o
    requires PendingOf(s') == if done then None else Some(line.(pos := s'.input.pos))
    requires forall k :: 0 <= k < s.count && k != j ==> View(s', k) == View(s, k)
    requires 0 <= o < |View(s, j).mem|
    requires View(s', j) == View(s, j).(mem := View(s, j).mem[o := c], waiting := View(s, j).waiting && !done)
    ensures Abs(s).pending.Some? && KeyStep(Abs(s), at, c, s'.input.pos, done, Abs(s'))
  {
    KeyedProcs(s, s', j);
    KeyStepIntro(Abs(s), View(s, j), View(s', j), at, c, s'.input.pos, done, Abs(s'));
  }

  lemma KeyedProcs(s: State, s': State, j: int)
    requires Shape(s) && PidsOk(s.table, s.count, Fresh(s)) && Shape(s')
    requires s'.count == s.count && s'.cur == s.cur && s'.parked == s.parked && s'.tick == s.tick
    requires 1 <= j < s.count
    requires forall k :: 0 <= k < PROCESS_SLOTS ==> s'.table[k].pid == s.table[k].pid
    requires forall k :: 1 <= k < s.count && k != j ==> View(s', k) == View(s, k)
    ensures var a, a' := Abs(s), Abs(s'); var pid := s.table[j].pid;
            && pid in a.procs && a.procs[pid] == View(s, j)
            && a'.procs == a.procs[pid := View(s', j)]
            && a'.running == a.running && a'.nextPid == a.nextPid && a'.typed == s'.input.pos
            && a'.pending == PendingOf(s') && a.pending == PendingOf(s)
  {
    ProcAt(s, j);
    ProcsUpdate(s, s', j);
  }

  lemma KeyStepIntro(a: AState, v: VProc, v': VProc, at: int, c: byte, pos: int, done: bool, a': AState)
    requires a.pending.Some? && a.pending.value.pid in a.procs && a.procs[a.pending.value.pid] == v
    requires 0 <= a.pending.value.off + at < |v.mem|
    requires v' == v.(mem := v.mem[a.pending.value.off + at := c], waiting := v.waiting && !done)
    requires a'.procs == a.procs[a.pending.value.pid := v']
    requires a'.running == a.running && a'.nextPid == a.nextPid && a'.typed == pos
    requires a'.pending == if done then None else Some(a.pending.value.(pos := pos))
    ensures KeyStep(a, at, c, pos, done, a')
  {
  }

  /** One key acting on an aimed line. */
  lemma LineStep(s: State, e: Event, at: int, c: byte, s': State)
    requires Shape(s) && Lockstep(s.heap, s.table, s.count) && PidsOk(s.table, s.count, Fresh(s)) && Aimed(s)
    requires e.Char? || e.Backspace? || e.Enter?
    requires e.Char? ==> at == s.input.pos < s.input.size - 1 && c == e.c && s'.input.pos == at + 1
    requires e.Backspace? ==> at == s.input.pos - 1 && 0 <= at && c == 0 && s'.input.pos == at
    requires e.Enter? ==> at == s.input.pos && c == 0 && s'.input.pos == 0
    requires 0 <= s.input.loc + at < |s.heap.ram| && Keyed(s, at, c, e.Enter?, s')
    ensures AStep(Abs(s), e, Abs(s'))
  {
    KeyRefines(s, at, c, e.Enter?, s');
    AimedLine(s);
    KeyIntro(Abs(s), e, at, c, s'.input.pos, Abs(s'));
  }

  lemma AimedLine(s: State)
    requires Shape(s) && Aimed(s)
    ensures Abs(s).pending.Some? && Abs(s).pending.value.pos == s.input.pos && Abs(s).pending.value.size == s.input.size
  {
  }

  lemma KeyIntro(a: AState, e: Event, at: int, c: byte, pos: int, a': AState)
    requires a.pending.Some? && KeyStep(a, at, c, pos, e.Enter?, a')
    requires match e
             case Char(d) => at == a.pending.value.pos < a.pending.value.size - 1 && c == d && pos == at + 1
             case Backspace => at == a.pending.value.pos - 1 && 0 <= at && c == 0 && pos == at
             case Enter => at == a.pending.value.pos && c == 0 && pos == 0
             case _ => false
    ensures AStep(a, e, a')
  {
  }

  lemma IdleKey(a: AState, e: Event)
    requires match e
             case Char(_) => a.pending.None? || a.pending.value.pos >= a.pending.value.size - 1
             case Backspace => a.pending.None? || a.pending.value.pos <= 0
             case Enter => a.pending.None?
             case _ => false
    ensures AStep(a, e, a)
  {
  }

  lemma KeysRefine(s: State, e: Event)
    requires Inv(s) && (e.Char? || e.Backspace? || e.Enter?) && (s.input.waiting ==> Aimed(s))
    ensures AStep(Abs(s), e, Abs(Step(s, e)))
  {
    var i := s.input;
    if i.waiting { AimedLine(s); }
    if i.waiting && e.Char? && i.pos < i.size - 1 { LineStep(s, e, i.pos, e.c, Typed(s, e.c)); }
    else if i.waiting && e.Backspace? && 0 < i.pos { LineStep(s, e, i.pos - 1, 0, Erased(s)); }
    else if i.waiting && e.Enter? { LineStep(s, e, i.pos, 0, Entered(s)); }
    else { IdleKey(Abs(s), e); }
  }

  // ---------- the main theorem ----------

  /** Whether the pending request is lost after the event: an exit in a lower slot loses it, a request
      is lost from the start when the characters left over do not fit its buffer, and the next request
      makes up for a loss. */
  ghost predicate LostAfter(s: State, lost: bool, e: Event)
    requires Shape(s)
  {
    match e
    case Exit => lost || (s.input.waiting && s.cur < s.input.slot)
    case GetInput(off, size) => if off <= s.table[s.cur].memSize then size <= s.input.pos else lost
    case _ => lost
  }

  /** What the processes see of a state in which the pending request may be lost. */
  ghost function Seen(s: State, lost: bool): AState
    requires Shape(s)
  {
    if lost then Abs(s).(pending := None) else Abs(s)
  }

  /** A request that is not lost names its process and its buffer. */
  ghost predicate Attended(s: State, lost: bool) {
    s.input.waiting && !lost ==> Aimed(s)
  }

  /** Every event but an exit, on a request that is not lost. */
  lemma EventRefines(s: State, e: Event)
    requires Inv(s) && Enabled(s, e) && !e.Exit? && (IsKey(e) && s.input.waiting ==> Aimed(s))
    ensures AStep(Abs(s), e, Abs(Step(s, e)))
  {
    match e
    case Tick => TimerRefines(s);
    case Compute(cpu) => ComputeRefines(s, cpu);
    case Store(off, bytes) => StoreRefines(s, off, bytes);
    case Spawn(file) => SpawnRefines(s, file);
    case GetInput(off, size) => GetInputRefines(s, off, size);
    case Char(_) => KeysRefine(s, e);
    case Backspace => KeysRefine(s, e);
    case Enter => KeysRefine(s, e);
    case Send(off, to) => SendRefines(s, off, to);
    case Pop(off) => PopRefines(s, off);
    case Mouse(owner, text) => MouseRefines(s, owner, text);
    case IsRunning(pid) => IsRunningRefines(s, pid);
  }

  lemma ExitRefines(s: State, lost: bool)
    requires Inv(s) && User(s) && Attended(s, lost)
    ensures Shape(ExitCall(s)) && Runs(Seen(s, lost))
    ensures ExitStep(Seen(s, lost), Seen(ExitCall(s), LostAfter(s, lost, Exit)))
    ensures Attended(ExitCall(s), LostAfter(s, lost, Exit))
  {
    ExitShape(s);
    ExitShows(s);
    var s' := ExitCall(s);
    if lost || !s.input.waiting {
      ExitIntro(Seen(s, lost), Seen(s', lost));
    } else {
      ExitPending(s);
      ExitIntro(Abs(s), Seen(s', s.cur < s.input.slot));
    }
  }

  lemma ExitIntro(a: AState, a': AState)
    requires Runs(a) && ExitLeaves(a, a') && a'.pending == if LosesLine(a) then None else a.pending
    ensures ExitStep(a, a')
  {
  }

  /** A step of the promised machine that neither asks for a line nor ends a process does not depend on
      the pending line. */
  lemma LineIrrelevant(a: AState, e: Event, a': AState)
    requires AStep(a, e, a') && !IsKey(e) && !e.Exit?
    requires e.GetInput? ==> Runs(a) && e.off > |a.procs[a.running.value].mem|
    ensures AStep(a.(pending := None), e, a'.(pending := None))
    ensures a'.pending == a.pending && a'.typed == a.typed
  {
    match e
    case Spawn(file) =>
      if file.Some? && !Rejected(file.value) {
        var residue :| SpawnStep(a, file.value, residue, a');
        assert SpawnStep(a.(pending := None), file.value, residue, a'.(pending := None));
      }
    case Mouse(owner, text) =>
      var stamp :| MouseStep(a, owner, text, stamp, a');
      assert MouseStep(a.(pending := None), owner, text, stamp, a'.(pending := None));
    case _ =>
  }

  /** A request that is taken up replaces the pending line, whatever it was. */
  lemma RequestReplaces(a: AState, off: int, size: int, a': AState)
    requires Runs(a) && GetInputStep(a, off, size, a') && off <= |a.procs[a.running.value].mem|
    ensures Runs(a.(pending := None)) && GetInputStep(a.(pending := None), off, size, a')
    ensures a'.pending.Some? <==> a.typed < size
  {
  }

  lemma RequestRefines(s: State, lost: bool, off: int, size: int)
    requires Inv(s) && Enabled(s, GetInput(off, size)) && Attended(s, lost)
    ensures var e := GetInput(off, size); var s', lost' := Step(s, e), LostAfter(s, lost, e);
            Shape(s') && AStep(Seen(s, lost), e, Seen(s', lost')) && Attended(s', lost')
  {
    StepKeepsInv(s, GetInput(off, size));
    GetInputRefines(s, off, size);
    RunnerMem(s);
    RequestSeen(s, Step(s, GetInput(off, size)), lost, off, size);
  }

  lemma RequestSeen(s: State, s': State, lost: bool, off: int, size: int)
    requires Shape(s) && Shape(s') && Attended(s, lost) && Runs(Abs(s))
    requires |Abs(s).procs[Abs(s).running.value].mem| == s.table[s.cur].memSize
    requires GetInputStep(Abs(s), off, size, Abs(s'))
    requires off > s.table[s.cur].memSize ==> s'.input == s.input
    ensures var e := GetInput(off, size); var lost' := LostAfter(s, lost, e);
            AStep(Seen(s, lost), e, Seen(s', lost')) && Attended(s', lost')
  {
    if off <= s.table[s.cur].memSize {
      RequestReplaces(Abs(s), off, size, Abs(s'));
    } else {
      LineIrrelevant(Abs(s), GetInput(off, size), Abs(s'));
    }
  }

  lemma RunnerMem(s: State)
    requires Inv(s) && User(s)
    ensures Runs(Abs(s)) && Abs(s).procs[Abs(s).running.value] == View(s, s.cur)
    ensures |View(s, s.cur).mem| == s.table[s.cur].memSize
  {
    ProcAt(s, s.cur);
    OwnBlockInRam(s, s.cur);
  }

  /** A key acts on the line or ends it. */
  lemma KeyAnswers(a: AState, e: Event, a': AState)
    requires AStep(a, e, a') && (e.Char? || e.Backspace?) && a.pending.Some?
    ensures a'.pending.Some?
  {
  }

  lemma KeyAttends(s: State, e: Event)
    requires Inv(s) && IsKey(e) && Attended(s, false)
    ensures var s' := Step(s, e); Shape(s') && AStep(Abs(s), e, Abs(s')) && Attended(s', false)
  {
    StepKeepsInv(s, e);
    KeysRefine(s, e);
    if s.input.waiting && !e.Enter? { KeyAnswers(Abs(s), e, Abs(Step(s, e))); }
  }

  lemma QuietRefines(s: State, lost: bool, e: Event)
    requires Inv(s) && Enabled(s, e) && Attended(s, lost) && !IsKey(e) && !e.Exit? && !e.GetInput?
    ensures var s' := Step(s, e);
            Shape(s') && AStep(Seen(s, lost), e, Seen(s', lost)) && Attended(s', lost)
  {
    StepKeepsInv(s, e);
    EventRefines(s, e);
    LineIrrelevant(Abs(s), e, Abs(Step(s, e)));
    QuietInput(s, e);
  }

  lemma QuietInput(s: State, e: Event)
    requires Inv(s) && Enabled(s, e) && !IsKey(e) && !e.Exit? && !e.GetInput?
    ensures Step(s, e).input == s.input
  {
  }

  /** Every step of the kernel is a step of the promised machine, unless it is a key that arrives
      while the pending request is lost. */
  lemma StepRefines(s: State, lost: bool, e: Event)
    requires Inv(s) && Enabled(s, e) && Attended(s, lost) && (IsKey(e) ==> !lost)
    ensures var s', lost' := Step(s, e), LostAfter(s, lost, e);
            Shape(s') && AStep(Seen(s, lost), e, Seen(s', lost')) && Attended(s', lost')
  {
    if e.Exit? { ExitRefines(s, lost); }
    else if e.GetInput? { RequestRefines(s, lost, e.off, e.size); }
    else if IsKey(e) { KeyAttends(s, e); }
    else { QuietRefines(s, lost, e); }
  }

  /** A run of the promised machine. */
  ghost predicate ARun(a: AState, es: seq<Event>, a': AState)
    decreases |es|
  {
    if es == [] then a' == a
    else exists a1 :: AStep(a, es[0], a1) && ARun(a1, es[1..], a')
  }

  /** No key is hit while the pending request is lost. */
  ghost predicate NoLostKeys(s: State, lost: bool, es: seq<Event>)
    requires Inv(s) && RunEnabled(s, es)
    decreases |es|
  {
    es != [] ==> (IsKey(es[0]) ==> !lost) && NoLostKeys(After(s, es[0]), LostAfter(s, lost, es[0]), es[1..])
  }

  ghost predicate LostBy(s: State, lost: bool, es: seq<Event>)
    requires Inv(s) && RunEnabled(s, es)
    decreases |es|
  {
    if es == [] then lost else LostBy(After(s, es[0]), LostAfter(s, lost, es[0]), es[1..])
  }

  /** Over every run of timer interrupts, system calls, keys and messages, with processes born,
      relocated and dying in between, each process sees exactly the machine it was promised. */
  lemma {:induction false} RunRefines(s: State, lost: bool, es: seq<Event>)
    requires Inv(s) && RunEnabled(s, es) && Attended(s, lost) && NoLostKeys(s, lost, es)
    ensures ARun(Seen(s, lost), es, Seen(Run(s, es), LostBy(s, lost, es)))
    decreases |es|
  {
    if es != [] {
      StepRefines(s, lost, es[0]);
      RunRefines(After(s, es[0]), LostAfter(s, lost, es[0]), es[1..]);
    }
  }

  /** Every exit during a request is that of a higher slot, and every request has room for the characters
      left over. */
  ghost predicate LosesNothing(s: State, es: seq<Event>)
    requires Inv(s) && RunEnabled(s, es)
    decreases |es|
  {
    es != [] ==> !LostAfter(s, false, es[0]) && LosesNothing(After(s, es[0]), es[1..])
  }

  lemma {:induction false} NothingIsLost(s: State, es: seq<Event>)
    requires Inv(s) && RunEnabled(s, es) && LosesNothing(s, es)
    ensures NoLostKeys(s, false, es) && !LostBy(s, false, es)
    decreases |es|
  {
    if es != [] { NothingIsLost(After(s, es[0]), es[1..]); }
  }

  /** The same from the end of kmain on, where no request is pending; and, if nothing is lost on the
      way, with any keys at all. */
  lemma BootRefines(up: State, es: seq<Event>)
    requires Initial(up) && Inv(up) && RunEnabled(up, es)
    ensures NoLostKeys(up, false, es) ==> ARun(Abs(up), es, Seen(Run(up, es), LostBy(up, false, es)))
    ensures LosesNothing(up, es) ==> ARun(Abs(up), es, Abs(Run(up, es)))
  {
    InitialInv(up);
    if LosesNothing(up, es) { NothingIsLost(up, es); }
    if NoLostKeys(up, false, es) { RunRefines(up, false, es); }
  }
}
