/** What whole runs of the kernel guarantee to a process: its PID is its own for ever, its inbox is
    a queue, it resumes where it stopped, and a line typed for it arrives as edited. */
module Histories {
  import opened Base
  import opened Memory
  import opened Processes
  import opened Machine
  import opened Invariant
  import opened AbstractMachine
  import opened Refinement

  // ---------- PIDs are never reused ----------

  /** The PID, if any, that this event hands out. */
  ghost function Issued(s: State, e: Event): seq<int> {
    if e.Spawn? && e.file.Some? && ImageOk(e.file.value) && !Rejected(e.file.value) then [Fresh(s)] else []
  }

  ghost function IssuedBy(s: State, es: seq<Event>): seq<int>
    requires Inv(s) && RunEnabled(s, es)
    decreases |es|
  {
    if es == [] then [] else Issued(s, es[0]) + IssuedBy(After(s, es[0]), es[1..])
  }

  /** The bound on issued PIDs never falls, not even when an exit lowers the process count: the
      exit parks the CPU until the timer has counted one more tick. */
  lemma FreshGrows(s: State, e: Event)
    requires Inv(s) && Enabled(s, e)
    ensures Fresh(s) + |Issued(s, e)| <= Fresh(Step(s, e))
  {
    if e.Exit? { KilledKeepsTables(s, s.cur); }
  }

  /** Every PID handed out in a run is larger than every PID alive at its start and than every PID
      handed out earlier in it. */
  lemma {:induction false} PidsNeverReused(s: State, es: seq<Event>)
    requires Inv(s) && RunEnabled(s, es)
    ensures Increasing(IssuedBy(s, es))
    ensures forall k :: 0 <= k < |IssuedBy(s, es)| ==> Fresh(s) <= IssuedBy(s, es)[k]
    ensures forall i :: 0 <= i < s.count ==> s.table[i].pid < Fresh(s)
    decreases |es|
  {
    if es != [] {
      FreshGrows(s, es[0]);
      PidsNeverReused(After(s, es[0]), es[1..]);
      PrependIncreasing(Issued(s, es[0]), IssuedBy(After(s, es[0]), es[1..]));
    }
  }

  lemma PrependIncreasing(first: seq<int>, rest: seq<int>)
    requires |first| <= 1 && Increasing(rest)
    requires forall k :: 0 <= k < |rest| ==> first == [] || first[0] < rest[k]
    ensures Increasing(first + rest)
  {
  }

  // ---------- what a step leaves alone ----------

  ghost predicate Alive(s: State, pid: int)
    requires s.count <= |s.table|
  {
    IndexOf(s.table, s.count, pid) != -1
  }

  ghost predicate Has(s: State, pid: int)
    requires Shape(s)
  {
    User(s) && s.table[s.cur].pid == pid
  }

  ghost function ProcOf(s: State, pid: int): VProc
    requires Shape(s) && Alive(s, pid)
  {
    View(s, IndexOf(s.table, s.count, pid))
  }

  lemma AliveInAbs(s: State, pid: int)
    requires Shape(s) && PidsOk(s.table, s.count, Fresh(s))
    ensures Alive(s, pid) <==> pid in Abs(s).procs
    ensures Alive(s, pid) ==> Abs(s).procs[pid] == ProcOf(s, pid)
    ensures Has(s, pid) <==> Abs(s).running == Some(pid)
  {
    PidsIncrease(s);
    if Alive(s, pid) { ProcAt(s, IndexOf(s.table, s.count, pid)); }
  }

  /** In the promised machine a step of another process leaves memory, registers and waiting flag
      alone. */
  lemma OthersUntouched(a: AState, e: Event, a': AState, pid: int)
    requires AStep(a, e, a') && !IsKey(e) && pid in a.procs && a.running != Some(pid)
    ensures pid in a'.procs
    ensures a'.procs[pid].mem == a.procs[pid].mem && a'.procs[pid].cpu == a.procs[pid].cpu
    ensures a'.procs[pid].waiting == a.procs[pid].waiting
  {
  }

  /** A key changes no registers, no queue and no table slot's owner. */
  lemma KeysKeepCpus(s: State, e: Event, pid: int)
    requires Inv(s) && IsKey(e) && Alive(s, pid)
    ensures var s' := Step(s, e);
            Shape(s') && Alive(s', pid) && ProcOf(s', pid).cpu == ProcOf(s, pid).cpu
            && ProcOf(s', pid).inbox == ProcOf(s, pid).inbox && Has(s', pid) == Has(s, pid)
            && |ProcOf(s', pid).mem| == |ProcOf(s, pid).mem|
  {
    var i := IndexOf(s.table, s.count, pid);
    KeyKeepsSlots(s, e);
    SamePids(s.table, Step(s, e).table, s.count, Fresh(s));
    IndexOfSlot(Step(s, e).table, s.count, i, Fresh(s));
  }

  lemma KeyKeepsSlots(s: State, e: Event)
    requires Inv(s) && IsKey(e)
    ensures var s' := Step(s, e);
            && Shape(s') && |s'.heap.ram| == |s.heap.ram| && s'.count == s.count && s'.cur == s.cur
            && s'.parked == s.parked && s'.cpu == s.cpu
            && forall k :: 0 <= k < |s.table| ==> s'.table[k].(waiting := true) == s.table[k].(waiting := true)
  {
  }

  /** The events that hand out a PID return it to the caller and start a process under it. */
  lemma IssuedIsReturned(s: State, e: Event)
    requires Inv(s) && Enabled(s, e) && Issued(s, e) != []
    ensures After(s, e).cpu.regs.eax == Issued(s, e)[0]
    ensures Alive(After(s, e), Issued(s, e)[0]) && !Alive(s, Issued(s, e)[0])
  {
    var s' := After(s, e);
    IndexOfSlot(s'.table, s'.count, s.count, Fresh(s'));
  }

  /** Slots up to the count keep their PIDs, and a slot that is added has this one. */
  ghost predicate PidsKept(s: State, issued: seq<int>, s': State)
    requires Shape(s) && Shape(s')
  {
    && s'.count == s.count + |issued|
    && (forall k :: 0 <= k < s.count ==> s'.table[k].pid == s.table[k].pid)
    && (s.count < s'.count ==> issued == [s'.table[s.count].pid])
  }

  /** Events other than exits leave the table's PIDs where they are. */
  lemma PidsStay(s: State, e: Event)
    requires Inv(s) && Enabled(s, e) && !e.Exit?
    ensures PidsKept(s, Issued(s, e), After(s, e))
  {
    if e.Spawn? { SpawnAddsPid(s, e.file); }
    else { assert Issued(s, e) == []; }
  }

  lemma SpawnAddsPid(s: State, file: Option<seq<byte>>)
    requires Inv(s) && Enabled(s, Spawn(file))
    ensures PidsKept(s, Issued(s, Spawn(file)), After(s, Spawn(file)))
  {
  }

  /** Nobody comes alive but under a PID just handed out. */
  lemma AliveBefore(s: State, e: Event, pid: int)
    requires Inv(s) && Enabled(s, e) && Alive(After(s, e), pid)
    ensures Alive(s, pid) || Issued(s, e) == [pid]
  {
    if e.Exit? { AliveBeforeExit(s, pid); } else { PidsStay(s, e); }
  }

  lemma AliveBeforeExit(s: State, pid: int)
    requires Inv(s) && User(s) && Alive(ExitCall(s), pid)
    ensures Alive(s, pid)
  {
    KilledKeepsTables(s, s.cur);
    var i := IndexOf(ExitCall(s).table, ExitCall(s).count, pid);
    assert s.table[if i < s.cur then i else i + 1].pid == pid;
  }

  /** A dead PID stays dead for the rest of the run. */
  lemma {:induction false} DeadStayDead(s: State, es: seq<Event>, pid: int)
    requires Inv(s) && RunEnabled(s, es) && pid < Fresh(s) && !Alive(s, pid)
    ensures !Alive(Run(s, es), pid)
    decreases |es|
  {
    if es != [] {
      FreshGrows(s, es[0]);
      if Alive(After(s, es[0]), pid) { AliveBefore(s, es[0], pid); }
      DeadStayDead(After(s, es[0]), es[1..], pid);
    }
  }

  /** Events other than a switch and an exit leave the scheduler and the owner of each slot in place. */
  lemma SlotStays(s: State, e: Event, i: int)
    requires Inv(s) && Enabled(s, e) && !Suspends(s, e) && !e.Exit? && 1 <= i < s.count
    ensures After(s, e).cur == s.cur
    ensures var s' := After(s, e); IndexOf(s'.table, s'.count, s.table[i].pid) == i
  {
    var s' := After(s, e);
    UserSlot(s, e);
    PidsStay(s, e);
    IndexOfSlot(s'.table, s'.count, i, Fresh(s'));
  }

  // ---------- context switches are transparent ----------

  /** A process that does not have the CPU is not changed by anybody's step. */
  lemma StepKeepsSuspended(s: State, e: Event, pid: int)
    requires Inv(s) && Enabled(s, e) && Alive(s, pid) && !Has(s, pid)
    ensures Inv(Step(s, e)) && Alive(Step(s, e), pid)
    ensures ProcOf(Step(s, e), pid).cpu == ProcOf(s, pid).cpu
    ensures |ProcOf(Step(s, e), pid).mem| == |ProcOf(s, pid).mem|
  {
    StepKeepsInv(s, e);
    if IsKey(e) {
      KeysKeepCpus(s, e, pid);
    } else {
      StepRefines(s, true, e);
      AliveInAbs(s, pid);
      AliveInAbs(Step(s, e), pid);
      OthersUntouched(Seen(s, true), e, Seen(Step(s, e), LostAfter(s, true, e)), pid);
    }
  }

  /** From now on to the end of the run, the process does not get the CPU before the last event. */
  ghost predicate OffCpuUntilLast(s: State, es: seq<Event>, pid: int)
    requires Inv(s) && RunEnabled(s, es)
    decreases |es|
  {
    es != [] ==> !Has(s, pid) && OffCpuUntilLast(After(s, es[0]), es[1..], pid)
  }

  lemma {:induction false} RunKeepsSuspended(s: State, es: seq<Event>, pid: int)
    requires Inv(s) && RunEnabled(s, es) && OffCpuUntilLast(s, es, pid) && Alive(s, pid)
    ensures Alive(Run(s, es), pid) && ProcOf(Run(s, es), pid).cpu == ProcOf(s, pid).cpu
    ensures |ProcOf(Run(s, es), pid).mem| == |ProcOf(s, pid).mem|
    decreases |es|
  {
    if es != [] {
      StepKeepsSuspended(s, es[0], pid);
      RunKeepsSuspended(After(s, es[0]), es[1..], pid);
    }
  }

  /** The two ways in which a process gives up the CPU and keeps its life. */
  ghost predicate Suspends(s: State, e: Event)
    requires Shape(s)
  {
    e.Tick? || (e.GetInput? && e.off <= s.table[s.cur].memSize)
  }

  /** An event that gives the CPU to a process it was taken from loads the frame pointer the process
      was born with. */
  lemma ResumeLoadsFirstFrame(s: State, e: Event, pid: int)
    requires Inv(s) && Enabled(s, e) && !Has(s, pid) && Has(Step(s, e), pid)
    ensures Step(s, e).cpu.regs.ebp == Step(s, e).table[Step(s, e).cur].memSize - 1
  {
    StepKeepsInv(s, e);
    if Suspends(s, e) { SwitchLoads(s, e); }
    else if e.Exit? { ExitShape(s); }
    else { UserSlot(s, e); }
  }

  lemma TimerLoads(s: State)
    requires Shape(s) && SomeReady(s.table, s.count)
    ensures Timer(s).cpu.regs == Timer(s).table[Timer(s).cur].regs && 1 <= Timer(s).cur < s.count
  {
  }

  /** Events other than a switch and an exit leave the CPU with its process. */
  lemma UserSlot(s: State, e: Event)
    requires Inv(s) && Enabled(s, e) && !Suspends(s, e) && !e.Exit?
    ensures var s' := Step(s, e);
            Shape(s') && s'.cur == s.cur && s'.parked == s.parked && s'.table[s.cur].pid == s.table[s.cur].pid
  {
    StepKeepsInv(s, e);
  }

  lemma {:induction false} RunResumesWithFirstFrame(s: State, es: seq<Event>, pid: int)
    requires Inv(s) && RunEnabled(s, es) && OffCpuUntilLast(s, es, pid) && es != [] && Has(Run(s, es), pid)
    ensures var s' := Run(s, es); s'.cpu.regs.ebp == s'.table[s'.cur].memSize - 1
    decreases |es|
  {
    if |es| == 1 {
      ResumeLoadsFirstFrame(s, es[0], pid);
      assert Run(s, es) == Step(s, es[0]);
    } else {
      RunResumesWithFirstFrame(After(s, es[0]), es[1..], pid);
    }
  }

  lemma SuspendKeepsCpu(s: State, e: Event, pid: int)
    requires Inv(s) && Enabled(s, e) && Has(s, pid) && Suspends(s, e)
    ensures var s' := After(s, e);
            && Alive(s, pid) && Alive(s', pid) && ProcOf(s', pid).cpu == ProcOf(s, pid).cpu == NoEbp(s.cpu)
            && |ProcOf(s', pid).mem| == |ProcOf(s, pid).mem| == s.table[s.cur].memSize
            && (Has(s', pid) ==> s'.cpu.regs.ebp == s'.table[s'.cur].memSize - 1)
  {
    var s' := After(s, e);
    RunnerSeen(s, pid);
    EventRefines(s, e);
    SuspendAbs(Abs(s), e, Abs(s'), ProcOf(s, pid));
    AliveInAbs(s', pid);
    SwitchLoads(s, e);
  }

  lemma RunnerSeen(s: State, pid: int)
    requires Inv(s) && Has(s, pid)
    ensures Alive(s, pid) && Runs(Abs(s)) && Abs(s).running == Some(pid) && Abs(s).procs[pid] == ProcOf(s, pid)
    ensures ProcOf(s, pid).cpu == NoEbp(s.cpu) && |ProcOf(s, pid).mem| == s.table[s.cur].memSize
  {
    AliveInAbs(s, pid);
    IndexOfSlot(s.table, s.count, s.cur, Fresh(s));
    OwnBlockInRam(s, s.cur);
  }

  lemma SwitchLoads(s: State, e: Event)
    requires Inv(s) && Enabled(s, e) && Suspends(s, e)
    ensures After(s, e).cpu.regs.ebp == After(s, e).table[After(s, e).cur].memSize - 1
  {
    if e.Tick? { TimerLoads(s); } else { TimerLoads(Blocked(s, e.off, e.size)); }
  }

  lemma SuspendAbs(a: AState, e: Event, a': AState, v: VProc)
    requires AStep(a, e, a') && (e.Tick? || (e.GetInput? && e.off <= |v.mem|))
    requires Runs(a) && a.procs[a.running.value] == v
    ensures a.running.value in a'.procs && a'.procs[a.running.value].cpu == v.cpu
    ensures a'.procs[a.running.value].mem == v.mem
  {
  }

  /** Context switching is transparent. A process is interrupted, others run, are born and die, the
      tables shift, and when it next gets the CPU its registers, flags and program counter are
      those it was interrupted with - except ebp, which the kernel never saves and which comes
      back as the initial stack top. */
  lemma ContextSwitchTransparent(s: State, e: Event, es: seq<Event>, pid: int)
    requires Inv(s) && Enabled(s, e) && Has(s, pid) && Suspends(s, e)
    requires RunEnabled(After(s, e), es) && OffCpuUntilLast(After(s, e), es, pid)
    requires Has(Run(After(s, e), es), pid)
    ensures var s' := Run(After(s, e), es);
            s'.cpu == s.cpu.(regs := s.cpu.regs.(ebp := s.table[s.cur].memSize - 1))
  {
    SuspendKeepsCpu(s, e, pid);
    RunResumes(After(s, e), es, pid);
    SameButEbp(s.cpu, Run(After(s, e), es).cpu, s.table[s.cur].memSize - 1);
  }

  lemma RunResumes(s: State, es: seq<Event>, pid: int)
    requires Inv(s) && RunEnabled(s, es) && OffCpuUntilLast(s, es, pid) && Alive(s, pid) && Has(Run(s, es), pid)
    requires Has(s, pid) ==> s.cpu.regs.ebp == s.table[s.cur].memSize - 1
    ensures NoEbp(Run(s, es).cpu) == ProcOf(s, pid).cpu
    ensures Run(s, es).cpu.regs.ebp == |ProcOf(s, pid).mem| - 1
  {
    RunKeepsSuspended(s, es, pid);
    if es != [] { RunResumesWithFirstFrame(s, es, pid); }
    RunnerSeen(Run(s, es), pid);
  }

  lemma SameButEbp(c: Cpu, c': Cpu, ebp: int)
    requires NoEbp(c) == NoEbp(c') && c'.regs.ebp == ebp
    ensures c' == c.(regs := c.regs.(ebp := ebp))
  {
    assert c'.regs == NoEbp(c').regs.(ebp := ebp);
  }

  /** So a context switch restores the whole CPU exactly for a process that keeps ebp at the initial
      stack top, as no compiled function does. */
  lemma ContextSwitchExactIff(s: State, e: Event, es: seq<Event>, pid: int)
    requires Inv(s) && Enabled(s, e) && Has(s, pid) && Suspends(s, e)
    requires RunEnabled(After(s, e), es) && OffCpuUntilLast(After(s, e), es, pid)
    requires Has(Run(After(s, e), es), pid)
    ensures Run(After(s, e), es).cpu == s.cpu <==> s.cpu.regs.ebp == s.table[s.cur].memSize - 1
  {
    ContextSwitchTransparent(s, e, es, pid);
  }

  // ---------- memory ----------

  function TotalSize(table: seq<Process>, count: int): int
    requires 0 <= count <= |table|
    decreases count
  {
    if count == 0 then 0 else TotalSize(table, count - 1) + table[count - 1].memSize
  }

  lemma {:induction false} BlocksAddUp(s: State, k: int)
    requires Lockstep(s.heap, s.table, s.count) && 0 <= k <= s.count
    ensures s.heap.list[k + 1].startAddr + s.heap.list[k + 1].size == KERNEL_BYTES + TotalSize(s.table, k)
    decreases k
  {
    if k > 0 {
      BlocksAddUp(s, k - 1);
      assert Mirrors(s.heap.list[k + 1], s.table[k - 1]);
      assert Placed(s.heap.list, k + 1, s.heap.installed);
    }
  }

  lemma StepKeepsInstalled(s: State, e: Event)
    requires Inv(s) && Enabled(s, e)
    ensures After(s, e).heap.installed == s.heap.installed
  {
    if e.Exit? { KilledKeepsTables(s, s.cur); }
  }

  /** In every reachable state the heap is exactly the kernel's block and the live processes' blocks,
      end to end. It ends within the installed memory plus the size of the next-to-last block. */
  lemma {:induction false} MemoryBound(s: State, es: seq<Event>)
    requires Inv(s) && RunEnabled(s, es)
    ensures var h := Run(s, es).heap;
            && h.installed == s.heap.installed
            && HeapEnd(h) == KERNEL_BYTES + TotalSize(Run(s, es).table, Run(s, es).count)
            && HeapEnd(h) <= s.heap.installed + h.list[h.index - 2].size
    decreases |es|
  {
    if es == [] {
      BlocksAddUp(s, s.count);
      HeapEndBound(s.heap);
    } else {
      StepKeepsInstalled(s, es[0]);
      MemoryBound(After(s, es[0]), es[1..]);
    }
  }

  // ---------- inboxes are queues ----------

  /** The message, if any, that an event gets accepted for a process. */
  ghost function Accepted(s: State, e: Event, pid: int): seq<Msg>
    requires Inv(s) && Enabled(s, e)
  {
    match e
    case Send(off, to) =>
      if to == pid && off <= s.table[s.cur].memSize && Accepts(s, to)
      then (OwnBlockInRam(s, s.cur); [Msg(s.table[s.cur].pid, Outgoing(s, off))]) else []
    case Mouse(owner, text) =>
      if owner == pid && owner != 0 && Accepts(s, owner) then [Msg(s.table[s.cur].pid, text)] else []
    case _ => []
  }

  /** The message, if any, that an event hands to a process. */
  ghost function Popped(s: State, e: Event, pid: int): seq<Msg>
    requires Inv(s) && Enabled(s, e)
  {
    if e.Pop? && s.table[s.cur].pid == pid && e.off <= s.table[s.cur].memSize && 0 < s.table[s.cur].queueSize
    then [s.table[s.cur].queue[0]] else []
  }

  ghost function AcceptedBy(s: State, es: seq<Event>, pid: int): seq<Msg>
    requires Inv(s) && RunEnabled(s, es)
    decreases |es|
  {
    if es == [] then [] else Accepted(s, es[0], pid) + AcceptedBy(After(s, es[0]), es[1..], pid)
  }

  ghost function PoppedBy(s: State, es: seq<Event>, pid: int): seq<Msg>
    requires Inv(s) && RunEnabled(s, es)
    decreases |es|
  {
    if es == [] then [] else Popped(s, es[0], pid) + PoppedBy(After(s, es[0]), es[1..], pid)
  }

  /** The process lives through the whole run. */
  ghost predicate LivesThrough(s: State, es: seq<Event>, pid: int)
    requires Inv(s) && RunEnabled(s, es)
    decreases |es|
  {
    Alive(s, pid) && (es != [] ==> LivesThrough(After(s, es[0]), es[1..], pid))
  }

  /** Events that are neither messages nor keys leave every surviving inbox alone. */
  lemma InboxesUntouched(a: AState, e: Event, a': AState, pid: int)
    requires AStep(a, e, a') && !IsKey(e) && !e.Send? && !e.Pop? && !e.Mouse?
    requires pid in a.procs && pid in a'.procs && (e.Exit? ==> a.running != Some(pid))
    ensures a'.procs[pid].inbox == a.procs[pid].inbox
  {
  }

  lemma SendInbox(a: AState, off: int, to: int, a': AState, pid: int)
    requires Runs(a) && SendStep(a, off, to, a') && pid in a.procs
    ensures pid in a'.procs
    ensures var me := a.procs[a.running.value];
            a'.procs[pid].inbox == a.procs[pid].inbox
              + if pid == to && off <= |me.mem| && HasRoom(a, to)
                then [Msg(a.running.value, me.mem[off + 4..off + 4 + TEXT_BYTES])] else []
  {
  }

  lemma PopInbox(a: AState, off: int, a': AState, pid: int)
    requires Runs(a) && PopStep(a, off, a') && pid in a.procs
    ensures pid in a'.procs
    ensures var me := a.procs[a.running.value];
            a.procs[pid].inbox
              == (if pid == a.running.value && off <= |me.mem| && me.inbox != [] then [me.inbox[0]] else [])
                 + a'.procs[pid].inbox
  {
  }

  /** One step: what was in the inbox, then what came, is what was taken, then what is left. */
  ghost predicate InOrder(s: State, e: Event, pid: int)
    requires Inv(s) && Enabled(s, e) && Alive(s, pid) && Alive(After(s, e), pid)
  {
    ProcOf(s, pid).inbox + Accepted(s, e, pid) == Popped(s, e, pid) + ProcOf(After(s, e), pid).inbox
  }

  lemma StepFifo(s: State, e: Event, pid: int)
    requires Inv(s) && Enabled(s, e) && Alive(s, pid) && Alive(After(s, e), pid)
    ensures InOrder(s, e, pid)
  {
    if e.Pop? { PopInOrder(s, e.off, pid); }
    else if e.Send? || e.Mouse? { ArrivalInOrder(s, e, pid); }
    else { QuietInOrder(s, e, pid); }
  }

  lemma PopInOrder(s: State, off: int, pid: int)
    requires Inv(s) && Enabled(s, Pop(off)) && Alive(s, pid) && Alive(After(s, Pop(off)), pid)
    ensures InOrder(s, Pop(off), pid)
  {
    PopFifo(s, off, pid);
    assert Accepted(s, Pop(off), pid) == [];
  }

  lemma ArrivalInOrder(s: State, e: Event, pid: int)
    requires Inv(s) && Enabled(s, e) && Alive(s, pid) && Alive(After(s, e), pid) && (e.Send? || e.Mouse?)
    ensures InOrder(s, e, pid)
  {
    if e.Send? { SendFifo(s, e.off, e.to, pid); } else { MouseFifo(s, e.owner, e.text, pid); }
    assert Popped(s, e, pid) == [];
  }

  lemma QuietInOrder(s: State, e: Event, pid: int)
    requires Inv(s) && Enabled(s, e) && Alive(s, pid) && Alive(After(s, e), pid)
    requires !e.Send? && !e.Mouse? && !e.Pop?
    ensures InOrder(s, e, pid)
  {
    if IsKey(e) { KeysKeepCpus(s, e, pid); } else { OtherFifo(s, e, pid); }
    assert Accepted(s, e, pid) == [] && Popped(s, e, pid) == [];
  }

  lemma OtherFifo(s: State, e: Event, pid: int)
    requires Inv(s) && Enabled(s, e) && Alive(s, pid) && Alive(After(s, e), pid)
    requires !IsKey(e) && !e.Send? && !e.Pop? && !e.Mouse?
    ensures ProcOf(After(s, e), pid).inbox == ProcOf(s, pid).inbox
  {
    AliveInAbs(s, pid);
    AliveInAbs(After(s, e), pid);
    StepRefines(s, true, e);
    if e.Exit? { ExitedIsGone(s, pid); }
    InboxesUntouched(Seen(s, true), e, Seen(After(s, e), LostAfter(s, true, e)), pid);
  }

  lemma MouseFifo(s: State, owner: int, text: seq<byte>, pid: int)
    requires Inv(s) && Enabled(s, Mouse(owner, text)) && Alive(s, pid)
    requires Alive(After(s, Mouse(owner, text)), pid)
    ensures ProcOf(s, pid).inbox + Accepted(s, Mouse(owner, text), pid)
         == ProcOf(After(s, Mouse(owner, text)), pid).inbox
  {
    if owner != 0 && Accepts(s, owner) { DeliveredInbox(s, owner, text, pid); }
  }

  /** No PID is negative, and the slot the scheduler stands at has a positive one, even after the process
      in it has exited. */
  ghost predicate PidsPositive(s: State)
    requires Shape(s)
  {
    0 <= s.table[0].pid && (1 <= s.cur ==> 0 < s.table[s.cur].pid)
  }

  lemma ExitKeepsPositive(s: State)
    requires Inv(s) && User(s) && PidsPositive(s)
    ensures Shape(ExitCall(s)) && PidsPositive(ExitCall(s))
  {
    KilledKeepsTables(s, s.cur);
    if s.cur < s.count - 1 { assert Older(s.table[0], s.table[s.cur + 1]); }
  }

  lemma StepKeepsPositive(s: State, e: Event)
    requires Inv(s) && Enabled(s, e) && PidsPositive(s)
    ensures PidsPositive(After(s, e))
  {
    var s' := After(s, e);
    if e.Exit? { ExitKeepsPositive(s); }
    else {
      PidsStay(s, e);
      if Suspends(s, e) {
        SwitchPicks(s, e);
        assert Older(s'.table[0], s'.table[s'.cur]);
      } else {
        UserSlot(s, e);
      }
    }
  }

  lemma SwitchPicks(s: State, e: Event)
    requires Inv(s) && Enabled(s, e) && Suspends(s, e)
    ensures 1 <= After(s, e).cur < After(s, e).count
  {
    if e.Tick? { TimerLoads(s); } else { TimerLoads(Blocked(s, e.off, e.size)); }
  }

  lemma {:induction false} RunKeepsPositive(s: State, es: seq<Event>)
    requires Inv(s) && RunEnabled(s, es) && PidsPositive(s)
    ensures PidsPositive(Run(s, es))
    decreases |es|
  {
    if es != [] {
      StepKeepsPositive(s, es[0]);
      RunKeepsPositive(After(s, es[0]), es[1..]);
    }
  }

  lemma ReachablePositive(s: State)
    requires Reachable(s) && Inv(s)
    ensures PidsPositive(s)
  {
    var up, es :| Leads(up, es, s);
    InitialInv(up);
    RunKeepsPositive(up, es);
  }

  /** A mouse message is stamped with the PID in the current slot. It carries the 0 that is to stand for
      the kernel if and only if nothing has been scheduled yet and kmain spawned the kernel's own
      process at tick 0. */
  lemma MouseStampZeroIff(s: State, owner: int, text: seq<byte>)
    requires Reachable(s) && Inv(s) && Enabled(s, Mouse(owner, text)) && owner != 0 && Accepts(s, owner)
    ensures Alive(s, owner) && Alive(After(s, Mouse(owner, text)), owner)
    ensures var inbox := ProcOf(After(s, Mouse(owner, text)), owner).inbox;
            && inbox == ProcOf(s, owner).inbox + [Msg(s.table[s.cur].pid, text)]
            && (inbox[|inbox| - 1].fromPid == 0 <==> s.cur == 0 && s.table[0].pid == 0)
  {
    ReachablePositive(s);
    DeliveredInbox(s, owner, text, owner);
  }

  lemma DeliveredInbox(s: State, to: int, text: seq<byte>, pid: int)
    requires Shape(s) && PidsOk(s.table, s.count, Fresh(s)) && SlotsOk(s.table, s.count) && Accepts(s, to)
    requires Alive(s, pid)
    ensures var s' := Delivered(s, to, text);
            Alive(s', pid) && ProcOf(s', pid).inbox
              == ProcOf(s, pid).inbox + if pid == to then [Msg(s.table[s.cur].pid, text)] else []
  {
    var s' := Delivered(s, to, text);
    var i, j := IndexOf(s.table, s.count, to), IndexOf(s.table, s.count, pid);
    SamePids(s.table, s'.table, s.count, Fresh(s));
    IndexOfSlot(s'.table, s.count, j, Fresh(s));
    EnqueueInbox(s.table[i], Msg(s.table[s.cur].pid, text));
  }

  lemma ExitedIsGone(s: State, pid: int)
    requires Inv(s) && User(s) && Alive(After(s, Exit), pid)
    ensures Abs(s).running != Some(pid)
  {
    ExitShows(s);
    AliveInAbs(After(s, Exit), pid);
  }

  lemma SendFifo(s: State, off: int, to: int, pid: int)
    requires Inv(s) && Enabled(s, Send(off, to)) && Alive(s, pid)
    requires Alive(After(s, Send(off, to)), pid)
    ensures ProcOf(s, pid).inbox + Accepted(s, Send(off, to), pid) == ProcOf(After(s, Send(off, to)), pid).inbox
  {
    AliveInAbs(s, pid);
    AliveInAbs(After(s, Send(off, to)), pid);
    ProcAt(s, s.cur);
    AcceptsIffRoom(s, to);
    EventRefines(s, Send(off, to));
    OwnBlockInRam(s, s.cur);
    if off <= s.table[s.cur].memSize { OutgoingSeen(s, off); }
    SendInbox(Abs(s), off, to, Abs(After(s, Send(off, to))), pid);
  }

  lemma PopFifo(s: State, off: int, pid: int)
    requires Inv(s) && Enabled(s, Pop(off)) && Alive(s, pid)
    requires Alive(After(s, Pop(off)), pid)
    ensures ProcOf(s, pid).inbox == Popped(s, Pop(off), pid) + ProcOf(After(s, Pop(off)), pid).inbox
  {
    AliveInAbs(s, pid);
    AliveInAbs(After(s, Pop(off)), pid);
    EventRefines(s, Pop(off));
    PopInbox(Abs(s), off, Abs(After(s, Pop(off))), pid);
    PoppedIs(s, off, pid);
  }

  lemma PoppedIs(s: State, off: int, pid: int)
    requires Inv(s) && Enabled(s, Pop(off))
    ensures Runs(Abs(s))
    ensures var a := Abs(s); var me := a.procs[a.running.value];
            Popped(s, Pop(off), pid)
              == if pid == a.running.value && off <= |me.mem| && me.inbox != [] then [me.inbox[0]] else []
  {
    ProcAt(s, s.cur);
    OwnBlockInRam(s, s.cur);
  }

  /** Over a whole run of a live process, what was accepted for it, after what it had, is what it
      popped followed by what it still has; and never more than sixteen messages wait. */
  lemma {:induction false} InboxIsFifo(s: State, es: seq<Event>, pid: int)
    requires Inv(s) && RunEnabled(s, es) && LivesThrough(s, es, pid)
    ensures Alive(Run(s, es), pid)
    ensures ProcOf(s, pid).inbox + AcceptedBy(s, es, pid)
         == PoppedBy(s, es, pid) + ProcOf(Run(s, es), pid).inbox
    ensures |ProcOf(Run(s, es), pid).inbox| <= 16
    decreases |es|
  {
    if es != [] {
      var s1 := After(s, es[0]);
      InboxIsFifo(s1, es[1..], pid);
      StepFifo(s, es[0], pid);
      FifoChain(ProcOf(s, pid).inbox, Accepted(s, es[0], pid), Popped(s, es[0], pid), ProcOf(s1, pid).inbox,
                AcceptedBy(s1, es[1..], pid), PoppedBy(s1, es[1..], pid), ProcOf(Run(s, es), pid).inbox);
    }
  }

  lemma FifoChain(q0: seq<Msg>, in1: seq<Msg>, out1: seq<Msg>, q1: seq<Msg>,
                  in2: seq<Msg>, out2: seq<Msg>, q2: seq<Msg>)
    requires q0 + in1 == out1 + q1 && q1 + in2 == out2 + q2
    ensures q0 + (in1 + in2) == (out1 + out2) + q2
  {
    assert q0 + (in1 + in2) == (q0 + in1) + in2 == out1 + (q1 + in2);
  }
}
