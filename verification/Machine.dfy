/** The Foki kernel core as a state machine over values: every interrupt and system call that
    touches RAM, the block list, the process table, the scheduler or the CPU, and the invariant
    that every run keeps. */
module Machine {
  import opened Base
  import opened Memory
  import opened Processes

  const SRET_SUCCESS: int := 0
  const SRET_ERROR: int := 1
  const MESSAGE_BYTES: int := 56  // sizeof(procMsg), with its two bytes of padding

  /** The base of the user segments loaded in the LDT. */
  datatype Segment = WaitLoop | BlockAt(start: int)

  /** The keyboard's view of a pending SC_GETUINPUT: a physical address and a table slot. */
  datatype Input = Input(loc: int, pos: int, size: int, waiting: bool, slot: int)

  /** parked: the CPU spins in wait() after SC_EXIT. While cur is 0 and not parked it runs kmain. */
  datatype State = State(heap: Heap, table: seq<Process>, count: int, cur: int, tick: int,
                         saveRegs: bool, cpu: Cpu, segment: Segment, parked: bool, input: Input)

  datatype Event =
    | Tick
    | Compute(cpu: Cpu)
    | Store(off: int, bytes: seq<byte>)
    | Spawn(file: Option<seq<byte>>)
    | Exit
    | GetInput(off: int, size: int)
    | Char(c: byte)
    | Backspace
    | Enter
    | Send(off: int, to: int)
    | Pop(off: int)
    | Mouse(owner: int, text: seq<byte>)  // or any other message of the kernel to the owner of the screen
    | IsRunning(pid: int)

  predicate IsKey(e: Event) {
    e.Char? || e.Backspace? || e.Enter?
  }

  // ---------- the invariant ----------

  ghost predicate Shape(s: State) {
    |s.table| == PROCESS_SLOTS && 1 <= s.count <= PROCESS_SLOTS && 0 <= s.cur < PROCESS_SLOTS && 0 <= s.tick
  }

  /** The block list and the process table describe the same blocks. */
  ghost predicate Lockstep(h: Heap, table: seq<Process>, count: int) {
    && HeapInv(h)
    && |table| == PROCESS_SLOTS && 0 <= count <= PROCESS_SLOTS
    && h.index == count + 2
    && (forall k :: 0 <= k < count ==> Mirrors(h.list[k + 2], table[k]))
  }

  ghost predicate Mirrors(e: MemEntry, p: Process) {
    e.startAddr == p.memStart && e.size == p.memSize && STACK_BYTES < p.memSize
  }

  /** No PID from here on has been handed out yet. */
  function Fresh(s: State): int {
    s.tick + s.count + if s.parked then 1 else 0
  }

  /** PIDs grow along the table and stay below the fresh ones. */
  ghost predicate PidsOk(table: seq<Process>, count: int, bound: int)
    requires 0 <= count <= |table|
  {
    && (forall i :: 0 <= i < count ==> table[i].pid < bound)
    && (forall i, j {:trigger Older(table[i], table[j])} :: 0 <= i < j < count ==> Older(table[i], table[j]))
  }

  ghost predicate Older(p: Process, q: Process) {
    p.pid < q.pid
  }

  /** Every slot's queue has its sixteen entries; saved frame pointers are the initial ones. */
  ghost predicate SlotsOk(table: seq<Process>, count: int)
    requires 0 <= count <= |table|
  {
    && (forall i :: 0 <= i < |table| ==> |table[i].queue| == QUEUE_SLOTS && 0 <= table[i].queueSize <= QUEUE_SLOTS)
    && (forall i, m :: 0 <= i < |table| && 0 <= m < table[i].queueSize ==> MsgOk(table[i].queue[m]))
    && (forall i :: 0 <= i < count ==> table[i].regs.ebp == table[i].memSize - 1)
  }

  ghost predicate MsgOk(m: Msg) {
    |m.text| == TEXT_BYTES
  }

  /** What the CPU runs: kmain, the scheduled process in its own segment, or the wait loop. */
  ghost predicate CpuOk(s: State)
    requires Shape(s)
  {
    && s.saveRegs == !s.parked
    && (if s.parked then 1 <= s.cur <= s.count else s.cur < s.count)
    && (!s.parked && 1 <= s.cur ==>
          !s.table[s.cur].waiting && s.segment == BlockAt(s.table[s.cur].memStart))
  }

  ghost predicate InputOk(i: Input) {
    && 0 <= i.slot < PROCESS_SLOTS
    && 0 <= i.loc <= 2 * MAX_INSTALLED
    && 0 <= i.pos <= MAX_INSTALLED
    && i.size <= MAX_INSTALLED
    && (!i.waiting ==> i.pos == 0)
  }

  ghost predicate Inv(s: State) {
    && Shape(s)
    && Lockstep(s.heap, s.table, s.count)
    && PidsOk(s.table, s.count, Fresh(s))
    && SlotsOk(s.table, s.count)
    && CpuOk(s)
    && InputOk(s.input)
  }

  // ---------- the timer: foki/pit.c and foki/pit.asm ----------

  /** What PITISR keeps of the interrupted CPU: everything but ebp. */
  function Saved(p: Process, cpu: Cpu): Process {
    p.(regs := cpu.regs.(ebp := p.regs.ebp), pcLoc := cpu.pc)
  }

  function AfterSave(s: State): seq<Process>
    requires Shape(s)
  {
    if s.saveRegs then s.table[s.cur := Saved(s.table[s.cur], s.cpu)] else s.table
  }

  ghost function Timer(s: State): State
    requires Shape(s) && SomeReady(s.table, s.count)
  {
    var next := Next(s.table, s.count, s.cur);
    var table := AfterSave(s);
    s.(table := table, cur := next, saveRegs := true, parked := false, tick := s.tick + 1,
       segment := BlockAt(table[next].memStart),
       cpu := Cpu(table[next].regs, table[next].pcLoc))
  }

  // ---------- system calls: foki/idt.c ----------

  predicate User(s: State) {
    !s.parked && 1 <= s.cur
  }

  /** The system call epilogue: the result goes into eax. */
  function Return(s: State, result: int): State {
    s.(cpu := s.cpu.(regs := s.cpu.regs.(eax := result)))
  }

  /** A file that spawnProcess can deal with: it has a header, and is not larger than 1 GiB. */
  predicate ImageOk(image: seq<byte>) {
    39 <= |image| <= MAX_INSTALLED
  }

  /** The three header bytes are all wrong; one right byte is enough to pass. */
  predicate Rejected(image: seq<byte>)
    requires ImageOk(image)
  {
    image[36] != 'A' as int && image[37] != 'E' as int && image[38] != 'F' as int
  }

  /** How many bytes of the header are right. */
  function RightBytes(image: seq<byte>): int
    requires ImageOk(image)
  {
    (if image[36] == 'A' as int then 1 else 0) + (if image[37] == 'E' as int then 1 else 0)
    + (if image[38] == 'F' as int then 1 else 0)
  }

  /** A malformed image is accepted if and only if one or two of the three bytes are right. A well-formed
      one is accepted, and one with all three wrong is not. */
  lemma AcceptedMalformedIff(image: seq<byte>)
    requires ImageOk(image)
    ensures image[36..39] == ['A' as int, 'E' as int, 'F' as int] ==> !Rejected(image)
    ensures RightBytes(image) == 0 <==> Rejected(image)
    ensures !Rejected(image) && image[36..39] != ['A' as int, 'E' as int, 'F' as int]
       <==> 1 <= RightBytes(image) <= 2
  {
    assert image[36..39] == [image[36], image[37], image[38]];
  }

  /** Such an image: a single 'A' among zeros. */
  lemma AcceptedMalformed()
    ensures var image: seq<byte> := seq(39, k => if k == 36 then 65 else 0);
            ImageOk(image) && !Rejected(image) && image[37] != 'E' as int && image[38] != 'F' as int
  {
  }

  function FreshRegs(size: int): Regs {
    Regs(0, 0, 0, 0, 0, 0, size - 1, size - 1, 0x3206)
  }

  /** createProcessEntry and the rest of spawnProcess, for a file that was read and accepted;
      None is the allocator's panic. */
  function Spawned(s: State, image: seq<byte>): Option<State>
    requires |s.table| == PROCESS_SLOTS && 0 <= s.count < PROCESS_SLOTS
    requires HeapInv(s.heap) && ImageOk(image)
  {
    var size := |image| + STACK_BYTES;
    var start := HeapEnd(s.heap);
    match Alloc(s.heap, size)
    case None => None
    case Some(heap) =>
      HeapEndBound(s.heap);
      SmallSum(s.heap, size);
      HeapEndBound(AllocInv(s.heap, size));
      Some(s.(heap := heap.(ram := Splice(heap.ram, start, image)),
              table := s.table[s.count := Process(false, start, size, FromLe32(image, 32), FreshRegs(size),
                                                 s.tick + s.count, 0, s.table[s.count].queue)],
              count := s.count + 1))
  }

  /** The guard's sum does not wrap for a program of up to 1 GiB and its stack. */
  lemma SmallSum(h: Heap, size: int)
    requires HeapInv(h) && 0 < size <= MAX_INSTALLED + STACK_BYTES
    ensures NoWrap(h, size)
  {
    HeapEndBound(h);
  }

  /** The process in p is a program as loaded: its block begins with the image, and it is about to run
      from the image's entry point, with an empty stack that begins at the end of the block. */
  ghost predicate Loaded(ram: seq<byte>, p: Process, image: seq<byte>)
    requires ImageOk(image)
  {
    && p.memSize == |image| + 16385 && 0 <= p.memStart && p.memStart + p.memSize <= |ram|
    && ram[p.memStart..p.memStart + |image|] == image
    && p.pcLoc == FromLe32(image, 32)
    && |image| <= p.regs.esp == p.memSize - 1 && p.regs.ebp == p.memSize - 1 && p.regs.flags == 0x3206
    && p.regs.eax == p.regs.ebx == p.regs.ecx == p.regs.edx == p.regs.esi == p.regs.edi == 0
    && !p.waiting && p.queueSize == 0
  }

  lemma SpliceSlice<T>(s: seq<T>, i: int, w: seq<T>)
    requires 0 <= i && i + |w| <= |s|
    ensures Splice(s, i, w)[i..i + |w|] == w
  {
  }

  /** spawnProcess loads the image behind all blocks there are, under a PID made of tick and count. */
  lemma SpawnedLoads(s: State, image: seq<byte>)
    requires |s.table| == PROCESS_SLOTS && 0 <= s.count < PROCESS_SLOTS && HeapInv(s.heap) && ImageOk(image)
    requires Spawned(s, image).Some?
    ensures var s' := Spawned(s, image).value;
            && Loaded(s'.heap.ram, s'.table[s.count], image)
            && s'.table[s.count].pid == s.tick + s.count && s'.table[s.count].memStart == HeapEnd(s.heap)
            && HeapEnd(s'.heap) == HeapEnd(s.heap) + |image| + 16385
            && (forall a :: 0 <= a < HeapEnd(s.heap) ==> s'.heap.ram[a] == s.heap.ram[a])
  {
    var size := |image| + STACK_BYTES;
    SmallSum(s.heap, size);
    HeapEndBound(s.heap);
    HeapEndBound(AllocInv(s.heap, size));
    SpliceSlice(Alloc(s.heap, size).value.ram, HeapEnd(s.heap), image);
  }

  ghost function AllocInv(h: Heap, size: int): (h': Heap)
    requires HeapInv(h) && 0 < size && NoWrap(h, size) && Alloc(h, size).Some?
    ensures HeapInv(h') && h' == Alloc(h, size).value
  {
    AllocKeepsInv(h, size);
    Alloc(h, size).value
  }

  /** kill. */
  function Killed(s: State, pid: int): State
    requires Shape(s) && HeapInv(s.heap)
  {
    var i := IndexOf(s.table, s.count, pid);
    if i == -1 then s else
      s.(heap := Free(s.heap, s.table[i].memStart),
         table := TableWithout(s.table, i, s.count),
         count := s.count - 1)
  }

  function ExitCall(s: State): State
    requires Shape(s) && HeapInv(s.heap)
  {
    Killed(s, s.table[s.cur].pid).(saveRegs := false, segment := WaitLoop, parked := true)
  }

  function Enqueued(p: Process, m: Msg): Process
    requires 0 <= p.queueSize < |p.queue|
  {
    p.(queue := p.queue[p.queueSize := m], queueSize := p.queueSize + 1)
  }

  function Dequeued(p: Process): Process
    requires 0 < p.queueSize <= |p.queue|
  {
    p.(queue := Compact(p.queue, 0, p.queueSize, m => m), queueSize := p.queueSize - 1)
  }

  /** Whether sendMessageToProcess accepts a message for a PID. */
  predicate Accepts(s: State, to: int)
    requires s.count <= |s.table|
  {
    var i := IndexOf(s.table, s.count, to);
    i != -1 && s.table[i].queueSize < QUEUE_SLOTS
  }

  /** sendMessageToProcess, accepted: the stamp is the PID in the current slot. */
  function Delivered(s: State, to: int, text: seq<byte>): State
    requires Shape(s) && SlotsOk(s.table, s.count) && Accepts(s, to)
  {
    var i := IndexOf(s.table, s.count, to);
    s.(table := s.table[i := Enqueued(s.table[i], Msg(s.table[s.cur].pid, text))])
  }

  /** A write of the running process, or of the kernel on its behalf, into its own block. */
  function Written(s: State, off: int, bytes: seq<byte>): State
    requires 0 <= s.cur < |s.table|
    requires 0 <= s.table[s.cur].memStart + off
    requires s.table[s.cur].memStart + off + |bytes| <= |s.heap.ram|
  {
    s.(heap := s.heap.(ram := Splice(s.heap.ram, s.table[s.cur].memStart + off, bytes)))
  }

  /** A store of the running program: the CPU adds the base of the loaded segment. */
  function Stored(s: State, off: int, bytes: seq<byte>): State
    requires s.segment.BlockAt? && 0 <= s.segment.start + off
    requires s.segment.start + off + |bytes| <= |s.heap.ram|
  {
    s.(heap := s.heap.(ram := Splice(s.heap.ram, s.segment.start + off, bytes)))
  }

  /** The bytes [off, off+n) of the running process lie in its block. */
  ghost predicate Inside(s: State, off: int, n: int)
    requires 0 <= s.cur < |s.table|
  {
    0 <= off && 0 <= n && off + n <= s.table[s.cur].memSize
  }

  /** A running process's block lies in RAM. */
  lemma OwnBlockInRam(s: State, i: int)
    requires Lockstep(s.heap, s.table, s.count) && 0 <= i < s.count
    ensures KERNEL_BYTES <= s.table[i].memStart && STACK_BYTES < s.table[i].memSize <= MAX_INSTALLED
    ensures s.table[i].memStart + s.table[i].memSize <= HeapEnd(s.heap) <= 2 * MAX_INSTALLED
  {
    HeapEndBound(s.heap);
    assert Mirrors(s.heap.list[i + 2], s.table[i]);
    BlocksOrdered(s.heap, 1, i + 2);
  }

  /** The text of the message structure at offset off of the running process. */
  function Outgoing(s: State, off: int): seq<byte>
    requires 0 <= s.cur < |s.table| && 0 <= s.table[s.cur].memStart + off
    requires s.table[s.cur].memStart + off + MESSAGE_BYTES <= |s.heap.ram|
  {
    var at := s.table[s.cur].memStart + off + 4;
    s.heap.ram[at..at + TEXT_BYTES]
  }

  ghost function SendCall(s: State, off: int, to: int): State
    requires Inv(s) && User(s) && (off > s.table[s.cur].memSize || Inside(s, off, MESSAGE_BYTES))
  {
    OwnBlockInRam(s, s.cur);
    if off > s.table[s.cur].memSize || !Accepts(s, to) then Return(s, SRET_ERROR)
    else
      var at := s.table[s.cur].memStart + off;
      var sent := Delivered(s, to, Outgoing(s, off));
      Return(sent.(heap := s.heap.(ram := Splice(s.heap.ram, at, Le32(s.table[s.cur].pid)))), SRET_SUCCESS)
  }

  ghost function PopCall(s: State, off: int): State
    requires Inv(s) && User(s) && (off > s.table[s.cur].memSize || Inside(s, off, MESSAGE_BYTES))
  {
    OwnBlockInRam(s, s.cur);
    var p := s.table[s.cur];
    if off > p.memSize || p.queueSize <= 0 then Return(s, SRET_ERROR)
    else
      assert MsgOk(p.queue[0]);
      var popped := Written(s, off, Le32(p.queue[0].fromPid) + p.queue[0].text);
      Return(popped.(table := s.table[s.cur := Dequeued(p)]), SRET_SUCCESS)
  }

  /** SC_GETUINPUT up to its jump into PITISR. */
  function Blocked(s: State, off: int, size: int): State
    requires 0 <= s.cur < |s.table|
  {
    s.(input := Input(s.table[s.cur].memStart + off, s.input.pos, size, true, s.cur),
       table := s.table[s.cur := s.table[s.cur].(waiting := true)])
  }

  ghost function GetInputCall(s: State, off: int, size: int): State
    requires Shape(s)
    requires off > s.table[s.cur].memSize
          || SomeReady(Blocked(s, off, size).table, s.count)
  {
    if off > s.table[s.cur].memSize then Return(s, SRET_ERROR) else Timer(Blocked(s, off, size))
  }

  ghost function SpawnCall(s: State, file: Option<seq<byte>>): State
    requires Inv(s) && s.count < PROCESS_SLOTS
    requires file.Some? ==> ImageOk(file.value)
    requires file.Some? && !Rejected(file.value) ==> Spawned(s, file.value).Some?
  {
    match file
    case None => Return(s, SRET_ERROR)
    case Some(image) =>
      if Rejected(image) then Return(s, SRET_ERROR)
      else Return(Spawned(s, image).value, s.tick + s.count)
  }

  // ---------- the keyboard: foki/ps2kbd.c ----------

  function Typed(s: State, c: byte): State
    requires InputOk(s.input) && |s.heap.ram| == ADDRESS_SPACE
  {
    var i := s.input;
    if i.waiting && i.pos < i.size - 1 then
      s.(heap := s.heap.(ram := s.heap.ram[i.loc + i.pos := c]), input := i.(pos := i.pos + 1))
    else s
  }

  function Erased(s: State): State
    requires InputOk(s.input) && |s.heap.ram| == ADDRESS_SPACE
  {
    var i := s.input;
    if 0 < i.pos && i.waiting then
      s.(heap := s.heap.(ram := s.heap.ram[i.loc + i.pos - 1 := 0]), input := i.(pos := i.pos - 1))
    else s
  }

  function Entered(s: State): State
    requires InputOk(s.input) && |s.heap.ram| == ADDRESS_SPACE && |s.table| == PROCESS_SLOTS
  {
    var i := s.input;
    if i.waiting then
      s.(heap := s.heap.(ram := s.heap.ram[i.loc + i.pos := 0]),
         table := s.table[i.slot := s.table[i.slot].(waiting := false)],
         input := i.(waiting := false, pos := 0, size := 0))
    else s
  }

  // ---------- one step ----------

  /** When an event can happen, under the hypotheses the kernel makes about its users: a free table
      slot for a new process, memory for it, structures and buffers inside the caller's block, and
      some ready process for the scheduler to find. */
  ghost predicate Enabled(s: State, e: Event)
    requires Inv(s)
  {
    match e
    case Tick => SomeReady(s.table, s.count)
    case Compute(_) => User(s)
    case Store(off, bytes) => User(s) && Inside(s, off, |bytes|)
    case Spawn(file) =>
      && User(s) && s.count < PROCESS_SLOTS
      && (file.Some? ==> ImageOk(file.value))
      && (file.Some? && !Rejected(file.value) ==> Spawned(s, file.value).Some?)
    case Exit => User(s)
    case GetInput(off, size) =>
      && User(s)
      && (off > s.table[s.cur].memSize
          || (1 <= size && Inside(s, off, size) && SomeReady(Blocked(s, off, size).table, s.count)))
    case Send(off, to) => User(s) && (off > s.table[s.cur].memSize || Inside(s, off, MESSAGE_BYTES))
    case Pop(off) => User(s) && (off > s.table[s.cur].memSize || Inside(s, off, MESSAGE_BYTES))
    case Mouse(owner, text) => |text| == TEXT_BYTES
    case IsRunning(_) => User(s)
    case _ => true
  }

  ghost function Step(s: State, e: Event): State
    requires Inv(s) && Enabled(s, e)
  {
    match e
    case Tick => Timer(s)
    case Compute(cpu) => s.(cpu := cpu)
    case Store(off, bytes) => OwnBlockInRam(s, s.cur); Stored(s, off, bytes)
    case Spawn(file) => SpawnCall(s, file)
    case Exit => ExitCall(s)
    case GetInput(off, size) => GetInputCall(s, off, size)
    case Char(c) => Typed(s, c)
    case Backspace => Erased(s)
    case Enter => Entered(s)
    case Send(off, to) => SendCall(s, off, to)
    case Pop(off) => PopCall(s, off)
    case Mouse(owner, text) => if owner != 0 && Accepts(s, owner) then Delivered(s, owner, text) else s
    case IsRunning(pid) => Return(s, if IndexOf(s.table, s.count, pid) == -1 then 0 else 1)
  }
}
