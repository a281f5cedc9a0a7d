/** Runs from the end of kmain on which the kernel misses what it seems to promise: the conditions
    found for its shortfalls are met by machines that exist and states they reach. */
module Witnesses {
  import opened Base
  import opened Memory
  import opened Processes
  import opened Machine
  import opened Invariant
  import opened Refinement
  import opened Histories
  import opened LineInput

  /** The smallest program: nothing but a header. */
  function Program(): (image: seq<byte>)
    ensures ImageOk(image) && |image| == 39 && !Rejected(image)
  {
    seq(39, k => if k == 36 then 65 else if k == 37 then 69 else if k == 38 then 70 else 0)
  }

  const PROGRAM_BYTES: int := 39 + STACK_BYTES

  ghost predicate RoomFor(s: State, bytes: int)
    requires Inv(s)
  {
    HeapEnd(s.heap) + bytes <= s.heap.installed
  }

  /** A machine with 16 MiB, started on two such programs. */
  lemma SomeMachine() returns (up: State)
    ensures Initial(up) && Inv(up) && Reachable(up) && up.table[0].pid == 0 && RoomFor(up, 2 * PROGRAM_BYTES)
  {
    var ram: seq<byte> := seq(ADDRESS_SPACE, _ => 0);
    var empty := Heap(ram, seq(MEM_LIST_SIZE, _ => MemEntry(0, 0)), 1, 0x100_0000);
    InitHeapInv(empty);
    var regs := Regs(0, 0, 0, 0, 0, 0, 0, 0, 0);
    var text: seq<byte> := seq(TEXT_BYTES, _ => 0);
    var slot := Process(false, 0, 0, 0, regs, 0, 0, seq(QUEUE_SLOTS, _ => Msg(0, text)));
    var bare := State(InitHeap(empty).value, seq(PROCESS_SLOTS, _ => slot), 0, 0, 0, true, Cpu(regs, 0),
                      WaitLoop, false, Input(0, 0, 0, false, 0));
    up := Booted(bare, Program(), Program(), 0).value;
    InitialInv(up);
    ReachInitial(up);
  }

  /** A reachable state in which the process in slot cur runs, out of count. */
  ghost predicate Running(s: State, cur: int, count: int) {
    Reachable(s) && User(s) && s.cur == cur && s.count == count
  }

  ghost predicate SameSlot(p: Process, p': Process) {
    SamePlace(p, p') && p'.waiting == p.waiting && p'.queueSize == p.queueSize
  }

  /** The timer moves on to the next slot, when that is ready. */
  lemma TickTo(s: State, n: int) returns (s': State)
    requires Inv(s) && Reachable(s) && Ready(s.table, s.count, n) && n == Advance(s.cur, s.count)
    ensures Enabled(s, Tick) && s' == After(s, Tick)
    ensures Running(s', n, s.count) && s'.heap == s.heap && s'.input == s.input
    ensures forall k :: 0 <= k < s.count ==> SameSlot(s.table[k], s'.table[k])
  {
    s' := After(s, Tick);
    ReachNext(s, Tick);
    TimerIs(s, n);
  }

  lemma TimerIs(s: State, n: int)
    requires Shape(s) && Ready(s.table, s.count, n) && n == Advance(s.cur, s.count)
    ensures var s' := Timer(s);
            && s'.cur == n && User(s') && s'.count == s.count && s'.heap == s.heap && s'.input == s.input
            && (forall k :: 0 <= k < |s.table| ==> SameSlot(s.table[k], s'.table[k]))
  {
  }

  /** A process that is ready has joined in slot count; the slots before it are as they were. */
  ghost predicate Joined(table: seq<Process>, count: int, table': seq<Process>)
    requires 0 <= count < |table| == |table'|
  {
    !table'[count].waiting && forall k :: 0 <= k < count ==> SameSlot(table[k], table'[k])
  }

  lemma SpawnProgram(s: State, cur: int, count: int, room: int) returns (s': State)
    requires Inv(s) && Running(s, cur, count) && count < PROCESS_SLOTS && 0 <= room && RoomFor(s, room + PROGRAM_BYTES)
    ensures Enabled(s, Spawn(Some(Program()))) && s' == After(s, Spawn(Some(Program())))
    ensures Running(s', cur, count + 1) && s'.input == s.input && RoomFor(s', room)
    ensures Joined(s.table, count, s'.table)
  {
    ReachSpawn(s, room);
    s' := After(s, Spawn(Some(Program())));
    ProgramSpawned(s, room);
    SpawnReturns(s);
  }

  lemma SpawnReturns(s: State)
    requires Inv(s) && Enabled(s, Spawn(Some(Program())))
    ensures After(s, Spawn(Some(Program()))) == Return(Spawned(s, Program()).value, s.tick + s.count)
  {
  }

  lemma ReachSpawn(s: State, room: int)
    requires Inv(s) && Running(s, s.cur, s.count) && s.count < PROCESS_SLOTS
    requires 0 <= room && RoomFor(s, room + PROGRAM_BYTES)
    ensures Enabled(s, Spawn(Some(Program()))) && Reachable(After(s, Spawn(Some(Program()))))
  {
    ProgramSpawned(s, room);
    ReachNext(s, Spawn(Some(Program())));
  }

  lemma ProgramSpawned(s: State, room: int)
    requires Shape(s) && Lockstep(s.heap, s.table, s.count) && User(s) && s.cur < s.count < PROCESS_SLOTS
    requires HeapEnd(s.heap) + room + PROGRAM_BYTES <= s.heap.installed && 0 <= room
    ensures Spawned(s, Program()).Some?
    ensures var s' := Spawned(s, Program()).value; var h := s'.heap;
            && s'.cur == s.cur && User(s') && s'.count == s.count + 1 && s'.input == s.input
            && h.installed == s.heap.installed && 2 <= h.index <= |h.list|
            && HeapEnd(h) == HeapEnd(s.heap) + PROGRAM_BYTES
            && Joined(s.table, s.count, s'.table)
  {
    HeapEndBound(s.heap);
  }

  // ---------- ebp ----------

  /** A process that moves its frame pointer does not get it back. */
  lemma EbpIsLost() returns (s: State, pid: int)
    ensures Inv(s) && Reachable(s) && Has(s, pid) && Enabled(s, Tick)
    ensures Has(After(s, Tick), pid) && After(s, Tick).cpu != s.cpu
  {
    var up := SomeMachine();
    InitialInv(up);
    var s1 := TickTo(up, 1);
    s := MoveEbp(s1);
    pid := s.table[1].pid;
    var s2 := TickTo(s, 1);
    assert Run(s2, []) == s2;
    ContextSwitchExactIff(s, Tick, [], pid);
  }

  lemma MoveEbp(s: State) returns (s': State)
    requires Inv(s) && Running(s, 1, 2) && !s.table[1].waiting
    ensures Inv(s') && Running(s', 1, 2) && !s'.table[1].waiting
    ensures s'.cpu.regs.ebp != s'.table[1].memSize - 1
  {
    var cpu := s.cpu.(regs := s.cpu.regs.(ebp := s.table[1].memSize));
    s' := After(s, Compute(cpu));
    ReachNext(s, Compute(cpu));
  }

  // ---------- the mouse ----------

  /** A mouse message that names a user process as its sender. */
  lemma MouseNamesRunner(text: seq<byte>) returns (s: State, owner: int)
    requires |text| == TEXT_BYTES
    ensures Inv(s) && Reachable(s) && Enabled(s, Mouse(owner, text)) && Alive(After(s, Mouse(owner, text)), owner)
    ensures owner != 0
    ensures ProcOf(After(s, Mouse(owner, text)), owner).inbox == [Msg(owner, text)]
  {
    var up := SomeMachine();
    InitialInv(up);
    s := TickTo(up, 1);
    owner := s.table[1].pid;
    assert SameSlot(up.table[1], s.table[1]);
    MouseNames(s, text);
  }

  lemma MouseNames(s: State, text: seq<byte>)
    requires Inv(s) && Reachable(s) && |text| == TEXT_BYTES && s.count == 2
    requires s.table[1].pid != 0 && s.table[1].queueSize == 0
    ensures var owner := s.table[1].pid; var s' := After(s, Mouse(owner, text));
            Alive(s', owner) && ProcOf(s', owner).inbox == [Msg(s.table[s.cur].pid, text)]
  {
    IndexOfSlot(s.table, s.count, 1, Fresh(s));
    MouseStampZeroIff(s, s.table[1].pid, text);
  }

  /** A mouse message that names the kernel: before anything is scheduled. */
  lemma MouseNamesKernel(text: seq<byte>) returns (s: State, owner: int)
    requires |text| == TEXT_BYTES
    ensures Inv(s) && Reachable(s) && Enabled(s, Mouse(owner, text)) && Alive(After(s, Mouse(owner, text)), owner)
    ensures ProcOf(After(s, Mouse(owner, text)), owner).inbox == [Msg(0, text)]
  {
    s := SomeMachine();
    InitialInv(s);
    owner := s.table[1].pid;
    MouseNames(s, text);
  }

  // ---------- requests that go wrong ----------

  /** Slot cur has begun to wait, and no other slot has changed its state. */
  ghost predicate Asked(table: seq<Process>, cur: int, table': seq<Process>)
    requires 0 <= cur < |table| == |table'|
  {
    && SamePlace(table[cur], table'[cur]) && table'[cur].waiting
    && forall k :: 0 <= k < |table| && k != cur ==> SameSlot(table[k], table'[k])
  }

  /** The runner asks for a line, and the next slot gets the CPU. */
  lemma AskForLine(s: State, off: int, size: int, cur: int, n: int) returns (s': State)
    requires Inv(s) && Running(s, cur, s.count) && Inside(s, off, size) && 1 <= size
    requires Ready(s.table, s.count, n) && n == Advance(cur, s.count) && n != cur
    ensures Enabled(s, GetInput(off, size)) && s' == After(s, GetInput(off, size)) && Running(s', n, s.count)
    ensures s'.heap == s.heap && s'.input == Input(s.table[cur].memStart + off, s.input.pos, size, true, cur)
    ensures Asked(s.table, cur, s'.table)
  {
    ReachRequest(s, off, size, n);
    s' := After(s, GetInput(off, size));
    RequestIs(s, off, size, n);
    RequestSwitches(s, off, size);
  }

  lemma RequestSwitches(s: State, off: int, size: int)
    requires Inv(s) && Enabled(s, GetInput(off, size)) && off <= s.table[s.cur].memSize
    ensures After(s, GetInput(off, size)) == Timer(Blocked(s, off, size))
  {
  }

  lemma ReachRequest(s: State, off: int, size: int, n: int)
    requires Inv(s) && Running(s, s.cur, s.count) && Inside(s, off, size) && 1 <= size
    requires Ready(s.table, s.count, n) && n == Advance(s.cur, s.count) && n != s.cur
    ensures Enabled(s, GetInput(off, size)) && Reachable(After(s, GetInput(off, size)))
  {
    RequestIs(s, off, size, n);
    ReachNext(s, GetInput(off, size));
  }

  lemma RequestIs(s: State, off: int, size: int, n: int)
    requires Shape(s) && Ready(s.table, s.count, n) && n == Advance(s.cur, s.count) && n != s.cur
    ensures var b := Blocked(s, off, size); SomeReady(b.table, s.count)
    ensures var s' := Timer(Blocked(s, off, size));
            && s'.cur == n && User(s') && s'.count == s.count && s'.heap == s.heap
            && s'.input == Input(s.table[s.cur].memStart + off, s.input.pos, size, true, s.cur)
            && Asked(s.table, s.cur, s'.table)
  {
    assert Ready(Blocked(s, off, size).table, s.count, n);
    TimerIs(Blocked(s, off, size), n);
  }

  /** Two user processes, the second waiting for a line, the first about to exit: Enter will not wake
      the second. */
  lemma RequestIsStranded() returns (s: State)
    ensures Inv(s) && Reachable(s) && Enabled(s, Exit) && Aimed(s) && s.cur < s.input.slot
    ensures var pid := s.table[s.input.slot].pid; var s' := After(After(s, Exit), Enter);
            Alive(s', pid) && ProcOf(s', pid).waiting
  {
    var up := SomeMachine();
    InitialInv(up);
    var s1 := TickTo(up, 1);
    var s2 := SpawnProgram(s1, 1, 2, 0);
    assert SameSlot(up.table[1], s1.table[1]) && SameSlot(s1.table[1], s2.table[1]);
    assert Ready(s2.table, 3, 2) && Ready(s2.table, 3, 1);
    var s3 := TickTo(s2, 2);
    OwnBlockInRam(s3, 2);
    assert SameSlot(s2.table[1], s3.table[1]);
    s := AskForLine(s3, 0, 1, 2, 1);
    RequestAimedIff(s3, 0, 1);
    EnterAfterExitIff(s);
  }

  /** Three user processes. The second waits for a line and 'A' has been typed for it; the first now
      asks for a line in the last byte of its block. Enter erases the second's 'A'. */
  lemma LineIsOverwritten() returns (s: State, off: int)
    ensures Inv(s) && Reachable(s) && Enabled(s, GetInput(off, 1)) && s.cur + 1 < s.count
    ensures var victim := s.table[s.cur + 1].pid; var s' := After(After(s, GetInput(off, 1)), Enter);
            && Alive(s, victim) && Alive(s', victim) && 0 < |ProcOf(s, victim).mem|
            && ProcOf(s, victim).mem[0] == 65 && ProcOf(s', victim).mem == ProcOf(s, victim).mem[0 := 0]
  {
    s := SecondHasTyped();
    OwnBlockInRam(s, 1);
    OwnBlockInRam(s, 2);
    off := s.table[1].memSize - 1;
    assert Ready(Blocked(s, off, 1).table, s.count, 3);
    StrayTerminator(s, off, 1);
    FirstByte(s, 2);
  }

  lemma FirstByte(s: State, k: int)
    requires Inv(s) && 1 <= k < s.count
    ensures Alive(s, s.table[k].pid) && 0 < |ProcOf(s, s.table[k].pid).mem|
    ensures 0 <= s.table[k].memStart < |s.heap.ram|
    ensures ProcOf(s, s.table[k].pid).mem[0] == s.heap.ram[s.table[k].memStart]
  {
    IndexOfSlot(s.table, s.count, k, Fresh(s));
    OwnBlockInRam(s, k);
  }

  /** The first of three runs; the second waits, with an 'A' in its buffer at offset 0. */
  lemma SecondHasTyped() returns (s: State)
    ensures Inv(s) && Running(s, 1, 4) && Ready(s.table, 4, 3) && s.input.pos == 1
    ensures 0 <= s.table[2].memStart < |s.heap.ram| && s.heap.ram[s.table[2].memStart] == 65
  {
    var s1 := ThreeProcesses();
    var s2 := TickTo(s1, 2);
    OwnBlockInRam(s2, 2);
    assert Ready(s1.table, 4, 1) && Ready(s1.table, 4, 3);
    assert SameSlot(s1.table[1], s2.table[1]) && SameSlot(s1.table[3], s2.table[3]);
    var s3 := AskForLine(s2, 0, 2, 2, 3);
    assert SameSlot(s2.table[1], s3.table[1]) && SameSlot(s2.table[3], s3.table[3]);
    var s4 := TypeA(s3);
    s := TickTo(s4, 1);
    assert SameSlot(s4.table[3], s.table[3]) && Asked(s2.table, 2, s3.table) && SameSlot(s4.table[2], s.table[2]);
  }

  lemma TypeA(s: State) returns (s': State)
    requires Inv(s) && Running(s, 3, 4) && s.input.waiting && s.input.pos == 0 && s.input.size == 2
    ensures s' == After(s, Char(65)) && Running(s', 3, 4) && s'.input.pos == 1 && s'.table == s.table
    ensures 0 <= s.input.loc < |s'.heap.ram| && s'.heap.ram[s.input.loc] == 65
  {
    TypedIs(s);
    s' := After(s, Char(65));
    ReachNext(s, Char(65));
    assert s' == Typed(s, 65);
  }

  lemma TypedIs(s: State)
    requires InputOk(s.input) && |s.heap.ram| == ADDRESS_SPACE
    requires s.input.waiting && s.input.pos == 0 && s.input.size == 2
    ensures var s' := Typed(s, 65);
            && s'.input.pos == 1 && s'.table == s.table
            && s'.count == s.count && s'.cur == s.cur && s'.parked == s.parked
            && 0 <= s.input.loc < |s'.heap.ram| && s'.heap.ram[s.input.loc] == 65
  {
  }

  lemma ThreeProcesses() returns (s: State)
    ensures Inv(s) && Running(s, 1, 4) && s.input == Input(0, 0, 0, false, 0)
    ensures Ready(s.table, 4, 1) && Ready(s.table, 4, 2) && Ready(s.table, 4, 3)
  {
    var up := SomeMachine();
    InitialInv(up);
    var s1 := TickTo(up, 1);
    var s2 := SpawnProgram(s1, 1, 2, PROGRAM_BYTES);
    s := SpawnProgram(s2, 1, 3, 0);
    assert SameSlot(up.table[1], s1.table[1]) && SameSlot(s1.table[1], s2.table[1]);
    assert SameSlot(s2.table[1], s.table[1]);
    assert SameSlot(s2.table[2], s.table[2]);
  }
}
