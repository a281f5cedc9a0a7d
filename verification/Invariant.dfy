/** Every step of the kernel keeps the invariant, from the state that kmain builds on. */
module Invariant {
  import opened Base
  import opened Memory
  import opened Processes
  import opened Machine

  /** A table update that leaves placement, identity and frame pointer of the slot alone. */
  ghost predicate SameIdentity(p: Process, q: Process) {
    && p.memStart == q.memStart && p.memSize == q.memSize && p.pid == q.pid
    && p.regs.ebp == q.regs.ebp
  }

  lemma SamePids(t: seq<Process>, t': seq<Process>, count: int, bound: int)
    requires 0 <= count <= |t| && count <= |t'| && PidsOk(t, count, bound)
    requires forall k :: 0 <= k < count ==> t'[k].pid == t[k].pid
    ensures PidsOk(t', count, bound)
  {
    forall i, j | 0 <= i < j < count ensures Older(t'[i], t'[j]) {
      assert Older(t[i], t[j]);
    }
  }

  lemma SlotUpdateKeepsTables(s: State, i: int, p: Process, ram: seq<byte>)
    requires Shape(s) && Lockstep(s.heap, s.table, s.count) && PidsOk(s.table, s.count, Fresh(s))
    requires SlotsOk(s.table, s.count)
    requires 0 <= i < PROCESS_SLOTS && SameIdentity(s.table[i], p)
    requires |p.queue| == QUEUE_SLOTS && 0 <= p.queueSize <= QUEUE_SLOTS
    requires forall m :: 0 <= m < p.queueSize ==> MsgOk(p.queue[m])
    requires |ram| == |s.heap.ram|
    ensures var t := s.table[i := p]; var h := s.heap.(ram := ram);
            Lockstep(h, t, s.count) && PidsOk(t, s.count, Fresh(s)) && SlotsOk(t, s.count)
  {
    var t := s.table[i := p];
    var h := s.heap.(ram := ram);
    SamePids(s.table, t, s.count, Fresh(s));
    forall k | 0 <= k < s.count ensures Mirrors(h.list[k + 2], t[k]) {
      assert Mirrors(s.heap.list[k + 2], s.table[k]);
    }
    forall k | 1 <= k < h.index ensures Placed(h.list, k, h.installed) {
      assert Placed(s.heap.list, k, s.heap.installed);
    }
  }

  lemma TimerKeepsInv(s: State)
    requires Shape(s) && Lockstep(s.heap, s.table, s.count) && PidsOk(s.table, s.count, Fresh(s))
    requires SlotsOk(s.table, s.count) && InputOk(s.input)
    requires s.saveRegs == !s.parked && SomeReady(s.table, s.count)
    ensures Inv(Timer(s))
  {
    SlotUpdateKeepsTables(s, s.cur, s.table[s.cur], s.heap.ram);
    SlotUpdateKeepsTables(s, s.cur, Saved(s.table[s.cur], s.cpu), s.heap.ram);
    assert s.table[s.cur := s.table[s.cur]] == s.table;
    assert s.heap.(ram := s.heap.ram) == s.heap;
  }

  lemma SpawnedKeepsInv(s: State, image: seq<byte>)
    requires 0 <= s.count < PROCESS_SLOTS == |s.table| && ImageOk(image)
    requires Lockstep(s.heap, s.table, s.count) && PidsOk(s.table, s.count, Fresh(s))
    requires SlotsOk(s.table, s.count) && !s.parked
    requires Spawned(s, image).Some?
    ensures var s' := Spawned(s, image).value;
            Lockstep(s'.heap, s'.table, s'.count) && PidsOk(s'.table, s'.count, Fresh(s'))
            && SlotsOk(s'.table, s'.count)
  {
    var s' := Spawned(s, image).value;
    SmallSum(s.heap, |image| + STACK_BYTES);
    AllocKeepsInv(s.heap, |image| + STACK_BYTES);
    forall i, j | 0 <= i < j < s'.count ensures Older(s'.table[i], s'.table[j]) {
      if j < s.count { assert Older(s.table[i], s.table[j]); }
    }
    forall k | 1 <= k < s'.heap.index ensures Placed(s'.heap.list, k, s'.heap.installed) {
      assert Placed(Alloc(s.heap, |image| + STACK_BYTES).value.list, k, s.heap.installed);
    }
    forall k | 0 <= k < s'.count ensures Mirrors(s'.heap.list[k + 2], s'.table[k]) {
      if k < s.count { assert Mirrors(s.heap.list[k + 2], s.table[k]); }
    }
  }

  /** The current process is found under its own PID. */
  lemma IndexOfSlot(table: seq<Process>, count: int, i: int, bound: int)
    requires 1 <= i < count <= |table| && PidsOk(table, count, bound)
    ensures IndexOf(table, count, table[i].pid) == i
  {
    forall k | 1 <= k < i ensures table[k].pid != table[i].pid {
      assert Older(table[k], table[i]);
    }
  }

  lemma TableWithoutOk(table: seq<Process>, i: int, count: int, bound: int)
    requires 1 <= i < count <= |table| && PidsOk(table, count, bound) && SlotsOk(table, count)
    ensures PidsOk(TableWithout(table, i, count), count - 1, bound)
    ensures SlotsOk(TableWithout(table, i, count), count - 1)
  {
    var t := TableWithout(table, i, count);
    forall j, k | 0 <= j < k < count - 1 ensures Older(t[j], t[k]) {
      assert Older(table[if j < i then j else j + 1], table[if k < i then k else k + 1]);
    }
    forall k | 0 <= k < |t|
      ensures exists j :: 0 <= j < |table| && t[k].queue == table[j].queue && t[k].queueSize == table[j].queueSize
    {
      var j := if i <= k < count - 1 then k + 1 else k;
      assert t[k].queue == table[j].queue && t[k].queueSize == table[j].queueSize;
    }
  }

  /** The two shift loops, in freeMem and in kill, keep the two tables in agreement. */
  lemma FreeKeepsLockstep(h: Heap, table: seq<Process>, count: int, i: int)
    requires Lockstep(h, table, count) && 1 <= i < count
    ensures Lockstep(Free(h, table[i].memStart), TableWithout(table, i, count), count - 1)
  {
    assert Mirrors(h.list[i + 2], table[i]);
    FreeKeepsInv(h, i + 2);
    var h', t := Free(h, table[i].memStart), TableWithout(table, i, count);
    forall k | 0 <= k < count - 1 ensures Mirrors(h'.list[k + 2], t[k]) {
      assert Mirrors(h.list[k + 2], table[k]);
      assert Mirrors(h.list[k + 3], table[k + 1]);
    }
  }

  /** What kill does to the tables, when it finds its victim in slot i. */
  lemma KilledKeepsTables(s: State, i: int)
    requires Shape(s) && Lockstep(s.heap, s.table, s.count) && PidsOk(s.table, s.count, Fresh(s))
    requires SlotsOk(s.table, s.count)
    requires 1 <= i < s.count
    ensures var s' := Killed(s, s.table[i].pid);
            && s'.count == s.count - 1
            && s'.table == TableWithout(s.table, i, s.count)
            && s'.heap == Free(s.heap, s.table[i].memStart)
            && Lockstep(s'.heap, s'.table, s'.count)
            && PidsOk(s'.table, s'.count, Fresh(s)) && SlotsOk(s'.table, s'.count)
  {
    IndexOfSlot(s.table, s.count, i, Fresh(s));
    TableWithoutOk(s.table, i, s.count, Fresh(s));
    FreeKeepsLockstep(s.heap, s.table, s.count, i);
    assert Killed(s, s.table[i].pid).table == TableWithout(s.table, i, s.count);
  }

  lemma ExitKeepsInv(s: State)
    requires Inv(s) && User(s)
    ensures Inv(ExitCall(s))
  {
    KilledKeepsTables(s, s.cur);
  }

  /** Bytes changed, table untouched. */
  lemma RamWriteKeepsInv(s: State, ram: seq<byte>)
    requires Inv(s) && |ram| == |s.heap.ram|
    ensures Inv(s.(heap := s.heap.(ram := ram)))
  {
    SlotUpdateKeepsTables(s, s.cur, s.table[s.cur], ram);
    assert s.table[s.cur := s.table[s.cur]] == s.table;
  }

  lemma SendKeepsInv(s: State, off: int, to: int)
    requires Inv(s) && Enabled(s, Send(off, to))
    ensures Inv(SendCall(s, off, to))
  {
    OwnBlockInRam(s, s.cur);
    if off <= s.table[s.cur].memSize && Accepts(s, to) {
      var at := s.table[s.cur].memStart + off;
      var text := Outgoing(s, off);
      var i := IndexOf(s.table, s.count, to);
      SlotUpdateKeepsTables(s, i, Enqueued(s.table[i], Msg(s.table[s.cur].pid, text)),
                            Splice(s.heap.ram, at, Le32(s.table[s.cur].pid)));
    }
  }

  lemma PopKeepsInv(s: State, off: int)
    requires Inv(s) && Enabled(s, Pop(off))
    ensures Inv(PopCall(s, off))
  {
    OwnBlockInRam(s, s.cur);
    var p := s.table[s.cur];
    if off <= p.memSize && 0 < p.queueSize {
      assert MsgOk(p.queue[0]);
      var bytes := Le32(p.queue[0].fromPid) + p.queue[0].text;
      forall m | 0 <= m < p.queueSize - 1 ensures MsgOk(Dequeued(p).queue[m]) {
        assert MsgOk(p.queue[m + 1]);
      }
      SlotUpdateKeepsTables(s, s.cur, Dequeued(p), Splice(s.heap.ram, p.memStart + off, bytes));
    }
  }

  lemma MouseKeepsInv(s: State, owner: int, text: seq<byte>)
    requires Inv(s) && |text| == TEXT_BYTES && Accepts(s, owner)
    ensures Inv(Delivered(s, owner, text))
  {
    var i := IndexOf(s.table, s.count, owner);
    SlotUpdateKeepsTables(s, i, Enqueued(s.table[i], Msg(s.table[s.cur].pid, text)), s.heap.ram);
    assert s.heap.(ram := s.heap.ram) == s.heap;
  }

  lemma GetInputKeepsInv(s: State, off: int, size: int)
    requires Inv(s) && Enabled(s, GetInput(off, size))
    ensures Inv(GetInputCall(s, off, size))
  {
    if off <= s.table[s.cur].memSize {
      OwnBlockInRam(s, s.cur);
      var b := Blocked(s, off, size);
      SlotUpdateKeepsTables(s, s.cur, b.table[s.cur], s.heap.ram);
      assert b.heap == s.heap.(ram := s.heap.ram);
      TimerKeepsInv(b);
    }
  }

  lemma EnterKeepsInv(s: State)
    requires Inv(s)
    ensures Inv(Entered(s))
  {
    var i := s.input;
    if i.waiting {
      SlotUpdateKeepsTables(s, i.slot, s.table[i.slot].(waiting := false), s.heap.ram[i.loc + i.pos := 0]);
    }
  }

  lemma SpawnKeepsInv(s: State, file: Option<seq<byte>>)
    requires Inv(s) && Enabled(s, Spawn(file))
    ensures Inv(SpawnCall(s, file))
  {
    if file.Some? && !Rejected(file.value) { SpawnedKeepsInv(s, file.value); }
  }

  lemma StoreKeepsInv(s: State, off: int, bytes: seq<byte>)
    requires Inv(s) && Enabled(s, Store(off, bytes))
    ensures Inv(Step(s, Store(off, bytes)))
  {
    OwnBlockInRam(s, s.cur);
    RamWriteKeepsInv(s, Stored(s, off, bytes).heap.ram);
  }

  lemma KeysKeepInv(s: State, c: byte)
    requires Inv(s)
    ensures Inv(Typed(s, c)) && Inv(Erased(s))
  {
    RamWriteKeepsInv(s, Typed(s, c).heap.ram);
    RamWriteKeepsInv(s, Erased(s).heap.ram);
  }

  /** The invariant of the whole machine: every enabled event keeps it. */
  lemma StepKeepsInv(s: State, e: Event)
    requires Inv(s) && Enabled(s, e)
    ensures Inv(Step(s, e))
  {
    match e
    case Tick => TimerKeepsInv(s);
    case Compute(_) =>
    case Store(off, bytes) => StoreKeepsInv(s, off, bytes);
    case Spawn(file) => SpawnKeepsInv(s, file);
    case Exit => ExitKeepsInv(s);
    case GetInput(off, size) => GetInputKeepsInv(s, off, size);
    case Char(c) => KeysKeepInv(s, c);
    case Backspace => KeysKeepInv(s, 0);
    case Enter => EnterKeepsInv(s);
    case Send(off, to) => SendKeepsInv(s, off, to);
    case Pop(off) => PopKeepsInv(s, off);
    case Mouse(owner, text) => if Accepts(s, owner) { MouseKeepsInv(s, owner, text); }
    case IsRunning(_) =>
  }

  // ---------- runs ----------

  /** One step, with the invariant it keeps. */
  ghost function After(s: State, e: Event): (s': State)
    requires Inv(s) && Enabled(s, e)
    ensures Inv(s') && s' == Step(s, e)
  {
    StepKeepsInv(s, e);
    Step(s, e)
  }

  /** Every event of the run is enabled when its turn comes. */
  ghost predicate RunEnabled(s: State, es: seq<Event>)
    requires Inv(s)
    decreases |es|
  {
    es != [] ==> Enabled(s, es[0]) && RunEnabled(After(s, es[0]), es[1..])
  }

  ghost function Run(s: State, es: seq<Event>): (s': State)
    requires Inv(s) && RunEnabled(s, es)
    ensures Inv(s')
    decreases |es|
  {
    if es == [] then s else Run(After(s, es[0]), es[1..])
  }

  // ---------- boot ----------

  /** The machine after initMem, before kmain spawns its two programs. */
  ghost predicate Bare(s: State) {
    && Lockstep(s.heap, s.table, s.count)
    && s.count == 0 && s.cur == 0 && s.saveRegs && !s.parked && 0 <= s.tick
    && SlotsOk(s.table, 0)
    && s.input == Input(0, 0, 0, false, 0)
  }

  /** kmain spawns the kernel process and, some ticks later, init; None is the allocator's panic. */
  ghost function Booted(s: State, kproc: seq<byte>, init: seq<byte>, ticks: nat): Option<State>
    requires Bare(s) && ImageOk(kproc) && ImageOk(init)
  {
    match Spawned(s, kproc)
    case None => None
    case Some(one) =>
      SpawnedKeepsInv(s, kproc);
      Spawned(one.(tick := one.tick + ticks), init)
  }

  /** The kernel enters its invariant before the first preemption, and the timer can then fire. */
  lemma BootKeepsInv(s: State, kproc: seq<byte>, init: seq<byte>, ticks: nat)
    requires Bare(s) && ImageOk(kproc) && ImageOk(init)
    ensures Booted(s, kproc, init, ticks).Some? ==>
              var up := Booted(s, kproc, init, ticks).value;
              Inv(up) && up.count == 2 && up.cur == 0 && up.tick == s.tick + ticks && Enabled(up, Tick)
  {
    if Booted(s, kproc, init, ticks).Some? {
      SpawnedKeepsInv(s, kproc);
      var one := Spawned(s, kproc).value;
      SpawnedKeepsInv(one.(tick := one.tick + ticks), init);
      assert Ready(Booted(s, kproc, init, ticks).value.table, 2, 1);
    }
  }

  /** The first slot holds the kernel's own process, which is never scheduled, the second init. */
  lemma BootLoads(s: State, kproc: seq<byte>, init: seq<byte>, ticks: nat)
    requires Bare(s) && ImageOk(kproc) && ImageOk(init) && Booted(s, kproc, init, ticks).Some?
    ensures var up := Booted(s, kproc, init, ticks).value;
            && 2 <= |up.table|
            && Loaded(up.heap.ram, up.table[0], kproc) && up.table[0].pid == s.tick
            && Loaded(up.heap.ram, up.table[1], init) && up.table[1].pid == s.tick + ticks + 1
  {
    var one := Spawned(s, kproc).value;
    SpawnedKeepsInv(s, kproc);
    SpawnedLoads(s, kproc);
    SpawnedLoads(one.(tick := one.tick + ticks), init);
    StaysLoaded(one.heap.ram, Booted(s, kproc, init, ticks).value.heap.ram, one.table[0], kproc);
  }

  lemma StaysLoaded(ram: seq<byte>, ram': seq<byte>, p: Process, image: seq<byte>)
    requires ImageOk(image) && Loaded(ram, p, image) && |ram'| == |ram|
    requires forall a :: 0 <= a < p.memStart + p.memSize ==> ram'[a] == ram[a]
    ensures Loaded(ram', p, image)
  {
    assert ram'[p.memStart..p.memStart + |image|] == ram[p.memStart..p.memStart + |image|];
  }

  /** After the first timer interrupt init runs, from its entry point and out of its own block. */
  lemma FirstTickRunsInit(s: State, kproc: seq<byte>, init: seq<byte>, ticks: nat)
    requires Bare(s) && ImageOk(kproc) && ImageOk(init) && Booted(s, kproc, init, ticks).Some?
    ensures var up := Booted(s, kproc, init, ticks).value;
            && Inv(up) && Enabled(up, Tick)
            && var s' := After(up, Tick);
               && s'.cur == 1 && !s'.parked && s'.tick == s.tick + ticks + 1
               && Loaded(s'.heap.ram, s'.table[1], init) && s'.segment == BlockAt(s'.table[1].memStart)
               && s'.cpu.pc == FromLe32(init, 32) && s'.cpu.regs == s'.table[1].regs
  {
    BootKeepsInv(s, kproc, init, ticks);
    BootLoads(s, kproc, init, ticks);
  }

  /** A state in which kmain has spawned its two programs and lets the timer preempt. */
  ghost predicate Initial(up: State) {
    exists s, kproc, init, ticks: nat ::
      Bare(s) && ImageOk(kproc) && ImageOk(init) && Booted(s, kproc, init, ticks) == Some(up)
  }

  lemma InitialInv(up: State)
    requires Initial(up)
    ensures Inv(up) && Enabled(up, Tick)
    ensures up.count == 2 && up.cur == 0 && !up.parked && !up.table[1].waiting
    ensures 0 <= up.table[0].pid && 0 < up.table[1].pid && up.table[1].queueSize == 0
    ensures up.input == Input(0, 0, 0, false, 0)
  {
    var s, kproc, init, ticks: nat :|
      Bare(s) && ImageOk(kproc) && ImageOk(init) && Booted(s, kproc, init, ticks) == Some(up);
    BootKeepsInv(s, kproc, init, ticks);
  }

  ghost predicate Leads(up: State, es: seq<Event>, s: State) {
    Initial(up) && Inv(up) && RunEnabled(up, es) && Run(up, es) == s
  }

  /** A state that some run from the end of kmain leads to. */
  ghost predicate Reachable(s: State) {
    exists up, es :: Leads(up, es, s)
  }

  lemma ReachInitial(up: State)
    requires Initial(up) && Inv(up)
    ensures Reachable(up)
  {
    assert Leads(up, [], up);
  }

  lemma ReachNext(s: State, e: Event)
    requires Reachable(s) && Inv(s) && Enabled(s, e)
    ensures Reachable(After(s, e))
  {
    var up, es :| Leads(up, es, s);
    LeadsOn(up, es, s, e);
    AlsoLeads(up, es + [e], After(s, e));
  }

  lemma AlsoLeads(up: State, es: seq<Event>, s: State)
    requires Leads(up, es, s)
    ensures Reachable(s)
  {
  }

  lemma LeadsOn(up: State, es: seq<Event>, s: State, e: Event)
    requires Leads(up, es, s) && Enabled(s, e)
    ensures Leads(up, es + [e], After(s, e))
  {
    RunOnce(up, es, e);
  }

  lemma {:induction false} RunOnce(s: State, es: seq<Event>, e: Event)
    requires Inv(s) && RunEnabled(s, es) && Enabled(Run(s, es), e)
    ensures RunEnabled(s, es + [e]) && Run(s, es + [e]) == After(Run(s, es), e)
    decreases |es|
  {
    SnocSplits(es, e);
    if es != [] { RunOnce(After(s, es[0]), es[1..], e); }
  }

  lemma SnocSplits(es: seq<Event>, e: Event)
    ensures (es + [e])[0] == if es == [] then e else es[0]
    ensures (es + [e])[1..] == if es == [] then [] else es[1..] + [e]
  {
  }
}
