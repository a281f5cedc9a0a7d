/** What a program on Foki is promised: a machine of its own. Processes are known by PID only and
    each has private memory, private registers and an inbox; there are no addresses, no table
    slots, no relocation and no saved contexts. */
module AbstractMachine {
  import opened Base
  import opened Processes
  import opened Machine

  const INBOX_SLOTS: int := 16
  const STACK: int := 16385

  // what a system call returns when there is nothing else to return
  const DONE: int := 0
  const REFUSED: int := 1

  /** cpu.regs.ebp is always 0 here: the kernel does not keep that register. */
  datatype VProc = VProc(mem: seq<byte>, cpu: Cpu, inbox: seq<Msg>, waiting: bool)

  /** A line being typed into the buffer [off, off+size) of a waiting process. */
  datatype Pending = Pending(pid: int, off: int, size: int, pos: int)

  /** running is None while kmain or the wait loop has the CPU. */
  datatype AState = AState(procs: map<int, VProc>, running: Option<int>, nextPid: int,
                           pending: Option<Pending>, typed: int)

  function NoEbp(cpu: Cpu): Cpu {
    cpu.(regs := cpu.regs.(ebp := 0))
  }

  function WithEax(v: VProc, result: int): VProc {
    v.(cpu := v.cpu.(regs := v.cpu.regs.(eax := result)))
  }

  ghost predicate Runs(a: AState) {
    a.running.Some? && a.running.value in a.procs
  }

  /** The running process's own view changes to v; nothing else does. */
  ghost predicate OnlyRunner(a: AState, v: VProc, a': AState)
    requires Runs(a)
  {
    a' == a.(procs := a.procs[a.running.value := v])
  }

  ghost predicate HasRoom(a: AState, pid: int) {
    pid in a.procs && |a.procs[pid].inbox| < INBOX_SLOTS
  }

  function Received(v: VProc, m: Msg): VProc {
    v.(inbox := v.inbox + [m])
  }

  /** The CPU goes to some process that is not waiting; no process can tell. */
  ghost predicate Switched(a: AState, a': AState) {
    && a'.procs == a.procs && a'.pending == a.pending && a'.typed == a.typed
    && a.nextPid <= a'.nextPid
    && a'.running.Some? && a'.running.value in a.procs && !a.procs[a'.running.value].waiting
  }

  /** An exit takes the keyboard away from a younger process. */
  ghost predicate LosesLine(a: AState)
    requires Runs(a)
  {
    a.pending.Some? && a.running.value < a.pending.value.pid
  }

  /** The runner vanishes and nobody has the CPU. A line pending for an older process is not touched;
      one pending for a younger process is lost. */
  ghost predicate ExitStep(a: AState, a': AState)
    requires Runs(a)
  {
    a' == a.(procs := a.procs - {a.running.value}, running := None,
             pending := if LosesLine(a) then None else a.pending)
  }

  /** A new process: its image and its stack as memory, the stack pointer at the end, interrupts enabled,
      no message waiting. */
  function Newborn(image: seq<byte>, stack: seq<byte>): VProc
    requires ImageOk(image)
  {
    VProc(image + stack,
          Cpu(Regs(eax := 0, ebx := 0, ecx := 0, edx := 0, esi := 0, edi := 0,
                   esp := |image + stack| - 1, ebp := 0, flags := 0x3206),
              FromLe32(image, 32)),
          [], false)
  }

  ghost predicate SpawnStep(a: AState, image: seq<byte>, residue: seq<byte>, a': AState)
    requires Runs(a) && ImageOk(image)
  {
    && |residue| == STACK && a.nextPid !in a.procs
    && a' == a.(
         procs := a.procs[a.running.value := WithEax(a.procs[a.running.value], a.nextPid)]
                         [a.nextPid := Newborn(image, residue)],
         nextPid := a.nextPid + 1)
  }

  ghost predicate SendStep(a: AState, off: int, to: int, a': AState)
    requires Runs(a)
  {
    var r := a.running.value;
    var me := a.procs[r];
    if off > |me.mem| || !HasRoom(a, to) then OnlyRunner(a, WithEax(me, REFUSED), a')
    else
      && 0 <= off && off + 56 <= |me.mem|
      && var inboxed := a.procs[to := Received(a.procs[to], Msg(r, me.mem[off + 4..off + 54]))];
         a' == a.(procs := inboxed[r := WithEax(inboxed[r].(mem := Splice(me.mem, off, Le32(r))), DONE)])
  }

  ghost predicate PopStep(a: AState, off: int, a': AState)
    requires Runs(a)
  {
    var me := a.procs[a.running.value];
    if off > |me.mem| || me.inbox == [] then OnlyRunner(a, WithEax(me, REFUSED), a')
    else
      && 0 <= off && off + 4 + |me.inbox[0].text| <= |me.mem|
      && OnlyRunner(a, WithEax(me.(mem := Splice(me.mem, off, Le32(me.inbox[0].fromPid) + me.inbox[0].text),
                                   inbox := me.inbox[1..]), DONE), a')
  }

  /** A device message is stamped with the running process's PID when there is one. */
  ghost predicate MouseStep(a: AState, owner: int, text: seq<byte>, stamp: int, a': AState) {
    if owner == 0 || !HasRoom(a, owner) then a' == a
    else
      && (a.running.Some? ==> stamp == a.running.value)
      && a' == a.(procs := a.procs[owner := Received(a.procs[owner], Msg(stamp, text))])
  }

  /** The pending line's buffer gets byte c at position at. */
  ghost predicate KeyStep(a: AState, at: int, c: byte, pos: int, done: bool, a': AState)
    requires a.pending.Some?
  {
    var line := a.pending.value;
    && line.pid in a.procs
    && 0 <= line.off + at < |a.procs[line.pid].mem|
    && var v := a.procs[line.pid];
       a' == a.(procs := a.procs[line.pid := v.(mem := v.mem[line.off + at := c],
                                                waiting := v.waiting && !done)],
                pending := if done then None else Some(line.(pos := pos)),
                typed := pos)
  }

  ghost predicate CharStep(a: AState, c: byte, a': AState) {
    if a.pending.Some? && a.pending.value.pos < a.pending.value.size - 1
    then KeyStep(a, a.pending.value.pos, c, a.pending.value.pos + 1, false, a')
    else a' == a
  }

  ghost predicate BackspaceStep(a: AState, a': AState) {
    if a.pending.Some? && 0 < a.pending.value.pos
    then KeyStep(a, a.pending.value.pos - 1, 0, a.pending.value.pos - 1, false, a')
    else a' == a
  }

  ghost predicate EnterStep(a: AState, a': AState) {
    if a.pending.Some? then KeyStep(a, a.pending.value.pos, 0, 0, true, a') else a' == a
  }

  /** The runner waits for a line in its buffer, and some other process gets the CPU. The line starts
      with the characters left over from an earlier request; it is lost if they do not fit. */
  ghost predicate GetInputStep(a: AState, off: int, size: int, a': AState)
    requires Runs(a)
  {
    var r := a.running.value;
    var me := a.procs[r];
    if off > |me.mem| then OnlyRunner(a, WithEax(me, REFUSED), a')
    else Switched(a.(procs := a.procs[r := me.(waiting := true)],
                     pending := if a.typed < size then Some(Pending(r, off, size, a.typed)) else None), a')
  }

  /** One step of the promised machine. */
  ghost predicate AStep(a: AState, e: Event, a': AState) {
    match e
    case Tick => Switched(a, a')
    case Compute(cpu) => Runs(a) && OnlyRunner(a, a.procs[a.running.value].(cpu := NoEbp(cpu)), a')
    case Store(off, bytes) =>
      && Runs(a) && 0 <= off && off + |bytes| <= |a.procs[a.running.value].mem|
      && var me := a.procs[a.running.value];
         OnlyRunner(a, me.(mem := Splice(me.mem, off, bytes)), a')
    case Spawn(file) =>
      && Runs(a)
      && (match file
          case None => OnlyRunner(a, WithEax(a.procs[a.running.value], REFUSED), a')
          case Some(image) =>
            && ImageOk(image)
            && (if Rejected(image) then OnlyRunner(a, WithEax(a.procs[a.running.value], REFUSED), a')
                else exists residue :: SpawnStep(a, image, residue, a')))
    case Exit => Runs(a) && ExitStep(a, a')
    case GetInput(off, size) => Runs(a) && GetInputStep(a, off, size, a')
    case Char(c) => CharStep(a, c, a')
    case Backspace => BackspaceStep(a, a')
    case Enter => EnterStep(a, a')
    case Send(off, to) => Runs(a) && SendStep(a, off, to, a')
    case Pop(off) => Runs(a) && PopStep(a, off, a')
    case Mouse(owner, text) => exists stamp :: MouseStep(a, owner, text, stamp, a')
    case IsRunning(pid) =>
      Runs(a) && OnlyRunner(a, WithEax(a.procs[a.running.value], if pid in a.procs then 1 else 0), a')
  }
}
