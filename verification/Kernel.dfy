/** The globals of foki/process.c, pit.c, idt.c and ps2kbd.c, and the code that changes them in
    place. Every interrupt and system call is proved to do what the state machine's step says. */
module Kernel {
  import opened Base
  import opened Memory
  import opened Processes
  import opened Machine
  import opened Invariant
  import Disk
  import Iso9660

  /** The bytes that a read of a file of less than 32 MiB delivers: its blocks, in disk order. */
  ghost function FileBytes(disk: Disk.Image, file: Iso9660.Entry): (image: seq<byte>)
    requires Readable(file)
    ensures ImageOk(image)
  {
    seq(Disk.RoundedUp(file.size), k => disk(Disk.BLOCK_BYTES * file.lba + k))
  }

  ghost predicate Readable(file: Iso9660.Entry) {
    0 <= file.lba < 0x4000_0000 && 0 < Disk.RoundedUp(file.size) < 0x200_0000
    && Disk.RoundedUp(file.size) % Disk.BLOCK_BYTES == 0
  }

  lemma FilledIs(now: seq<byte>, before: seq<byte>, disk: Disk.Image, file: Iso9660.Entry)
    requires Readable(file) && |now| == Disk.RoundedUp(file.size)
    requires Disk.Filled(now, before, disk, Disk.BLOCK_BYTES * file.lba, |now|)
    ensures now == FileBytes(disk, file)
  {
  }

  class Kernel {
    const mem: MemoryManager
    const processes: array<Process>
    var processCount: int
    var schedulerProcessAt: int
    var tick: int
    var saveRegs: bool

    // the CPU as the interrupted program left it, its segments, and whether it is in wait()
    var cpu: Cpu
    var segment: Segment
    var parked: bool

    // the proc_* globals through which PITISR hands a context to the trampoline
    var procRegs: Regs
    var procIp: int

    var processBufferLoc: int
    var processBufferPos: int
    var processBufferSize: int
    var processWaitingForInput: bool
    var inputWaitingPid: int

    ghost function Abs(): State
      reads this, mem, mem.ram, mem.list, processes
    {
      State(mem.Abs(), processes[..], processCount, schedulerProcessAt, tick, saveRegs, cpu, segment, parked,
            Input(processBufferLoc, processBufferPos, processBufferSize, processWaitingForInput, inputWaitingPid))
    }

    /** The objects of the kernel do not overlap. */
    ghost predicate Apart()
      reads this, mem
    {
      && mem.ram as object != mem.list as object
      && processes as object != mem.list as object
      && processes as object != mem.ram as object
    }

    ghost predicate Valid()
      reads this, mem, mem.ram, mem.list, processes
    {
      Apart() && Inv(Abs())
    }

    /** Before kmain's two spawns. */
    constructor (mem: MemoryManager, slots: array<Process>, tick: int, cpu: Cpu)
      requires mem.Valid() && mem.index == 2 && slots.Length == 256 && 0 <= tick
      requires slots as object != mem.list as object && slots as object != mem.ram as object
      requires SlotsOk(slots[..], 0)
      ensures this.mem == mem && processes == slots && Apart() && Bare(Abs())
    {
      this.mem := mem;
      processes := slots;
      processCount, schedulerProcessAt := 0, 0;
      this.tick := tick;
      saveRegs := true;
      this.cpu := cpu;
      segment, parked := WaitLoop, false;
      procRegs, procIp := cpu.regs, cpu.pc;
      processBufferLoc, processBufferPos, processBufferSize := 0, 0, 0;
      processWaitingForInput, inputWaitingPid := false, 0;
    }

    /** The end of kmain: two processes are spawned, the timer counting on in between; false is the
        allocator's panic. */
    method Boot(kproc: seq<byte>, init: seq<byte>, ticks: nat) returns (ok: bool)
      requires Apart() && Bare(Abs()) && ImageOk(kproc) && ImageOk(init) && !Rejected(kproc) && !Rejected(init)
      modifies this, mem`index, mem.list, mem.ram, processes
      ensures ok <==> Booted(old(Abs()), kproc, init, ticks).Some?
      ensures ok ==> Valid() && Abs() == Booted(old(Abs()), kproc, init, ticks).value
      ensures ok ==>
        && processCount == 2 && tick == old(tick) + ticks
        && Loaded(mem.ram[..], processes[0], kproc) && processes[0].pid == old(tick)
        && Loaded(mem.ram[..], processes[1], init) && processes[1].pid == old(tick) + ticks + 1
    {
      ghost var s := Abs();
      ok := SpawnBoth(kproc, init, ticks);
      if ok {
        BootKeepsInv(s, kproc, init, ticks);
        BootLoads(s, kproc, init, ticks);
      }
    }

    method SpawnBoth(kproc: seq<byte>, init: seq<byte>, ticks: nat) returns (ok: bool)
      requires Apart() && Bare(Abs()) && ImageOk(kproc) && ImageOk(init) && !Rejected(kproc) && !Rejected(init)
      modifies this, mem`index, mem.list, mem.ram, processes
      ensures ok <==> Booted(old(Abs()), kproc, init, ticks).Some?
      ensures ok ==> Apart() && Abs() == Booted(old(Abs()), kproc, init, ticks).value
    {
      ghost var s := Abs();
      var first := SpawnProcess(kproc);
      if first.None? { return false; }
      SpawnedKeepsInv(s, kproc);
      tick := tick + ticks;
      assert Abs() == Spawned(s, kproc).value.(tick := s.tick + ticks);
      assert Booted(s, kproc, init, ticks) == Spawned(Abs(), init);
      var second := SpawnProcess(init);
      return second.Some?;
    }

    // ---------- foki/process.c ----------

    method GetProcessIndexFromPid(pid: int) returns (r: int)
      requires processCount <= processes.Length
      ensures r == IndexOf(processes[..], processCount, pid)
    {
      var i := 1;
      while i < processCount
        invariant 1 <= i
        invariant IndexOf(processes[..], processCount, pid) == IndexFrom(processes[..], i, processCount, pid)
      {
        if processes[i].pid == pid { return i; }
        i := i + 1;
      }
      return -1;
    }

    method GetNextProcessDry() returns (at: int)
      requires 0 <= processCount <= processes.Length && 0 <= schedulerProcessAt
      requires processCount != 0 ==> SomeReady(processes[..], processCount)
      ensures processCount == 0 ==> at == -1
      ensures processCount != 0 ==> at == Next(processes[..], processCount, schedulerProcessAt)
    {
      if processCount == 0 { return -1; }
      at := schedulerProcessAt;
      ghost var goal :| Ready(processes[..], processCount, goal);
      var first := true;
      while first || processes[at].waiting
        invariant first ==> at == schedulerProcessAt
        invariant !first ==> 1 <= at < processCount
        invariant first || processes[at].waiting ==>
            Next(processes[..], processCount, at) == Next(processes[..], processCount, schedulerProcessAt)
        invariant !first && !processes[at].waiting ==> at == Next(processes[..], processCount, schedulerProcessAt)
        decreases if !first && at == goal then 0 else Gap(at, goal, processCount), first
      {
        first := false;
        at := at + 1;
        if at >= processCount { at := 1; }
        if at == 0 { at := 1; }
      }
    }

    method GetNextProcess() returns (at: int)
      requires 0 < processCount <= processes.Length && 0 <= schedulerProcessAt
      requires SomeReady(processes[..], processCount)
      modifies this`schedulerProcessAt
      ensures at == schedulerProcessAt == Next(processes[..], processCount, old(schedulerProcessAt))
    {
      at := GetNextProcessDry();
      schedulerProcessAt := at;
    }

    /** createProcessEntry; false is the panic of the allocator. */
    method CreateProcessEntry(fileSize: int) returns (ok: bool)
      requires Apart() && mem.Valid() && 0 <= fileSize
      requires processes.Length == PROCESS_SLOTS && 0 <= processCount < PROCESS_SLOTS
      modifies this`processCount, mem`index, mem.list, processes
      ensures Apart()
      ensures ok <==> Alloc(old(mem.Abs()), fileSize + STACK_BYTES).Some?
      ensures ok ==>
        && mem.Abs() == Alloc(old(mem.Abs()), fileSize + STACK_BYTES).value
        && processCount == old(processCount) + 1
        && processes[..] == old(processes[..])[old(processCount) :=
             Process(false, HeapEnd(old(mem.Abs())), fileSize + STACK_BYTES, 0,
                     Regs(eax := 0, ebx := 0, ecx := 0, edx := 0, esi := 0, edi := 0, esp := fileSize + 16384,
                          ebp := fileSize + 16384, flags := 0x3206),
                     tick + old(processCount), 0, old(processes[processCount]).queue)]
    {
      var fileSizeWithStack := fileSize + STACK_BYTES;
      var n := processCount;
      var p := processes[n];
      processes[n] := processes[n].(pcLoc := 0);
      var top := fileSizeWithStack - 1;
      processes[n] := processes[n].(regs := Regs(0, 0, 0, 0, 0, 0, top, top, 0x3206));
      processes[n] := processes[n].(queueSize := 0, waiting := false);
      var addr := mem.AllocMem(fileSizeWithStack);
      if addr.None? { return false; }
      processes[n] := processes[n].(memStart := addr.value, pid := tick + n);
      processes[n] := processes[n].(memSize := fileSizeWithStack);
      processCount := processCount + 1;
      return true;
    }

    /** spawnProcess for a file that was found; pid 0 is a malformed image, None the panic. */
    method SpawnProcess(image: seq<byte>) returns (pid: Option<int>)
      requires Apart() && mem.Valid() && ImageOk(image)
      requires processes.Length == PROCESS_SLOTS && 0 <= processCount < PROCESS_SLOTS
      modifies this`processCount, mem`index, mem.list, mem.ram, processes
      ensures Apart()
      ensures Rejected(image) ==> pid == Some(0) && Abs() == old(Abs())
      ensures !Rejected(image) ==>
        && (pid.Some? <==> Spawned(old(Abs()), image).Some?)
        && (pid.Some? ==> pid.value == tick + old(processCount) && Abs() == Spawned(old(Abs()), image).value)
    {
      if image[36] != 'A' as int && image[37] != 'E' as int && image[38] != 'F' as int { return Some(0); }
      ghost var s := Abs();
      var processIndex := processCount;
      var ok := CreateProcessEntry(|image|);
      if !ok { return None; }
      processes[processIndex] := processes[processIndex].(pcLoc := FromLe32(image, 32));
      HeapEndBound(s.heap);
      SmallSum(s.heap, |image| + STACK_BYTES);
      HeapEndBound(AllocInv(s.heap, |image| + STACK_BYTES));
      CopyIn(processes[processIndex].memStart, image);
      return Some(processes[processIndex].pid);
    }

    /** spawnProcess for the path of an existing file: the new process has the file's blocks as memory,
        followed by its stack. */
    method SpawnPath(disk: Disk.Image, path: seq<byte>, stray: byte,
                     ghost root: seq<Iso9660.Entry>, ghost comps: seq<seq<byte>>)
      returns (pid: Option<int>)
      requires Iso9660.HoldsRoot(disk, root) && Iso9660.PathOk(comps) && Iso9660.Spells(path, comps)
      requires Iso9660.Lookup(root, comps).Some? && Readable(Iso9660.Lookup(root, comps).value)
      requires Apart() && mem.Valid() && processes.Length == PROCESS_SLOTS && 0 <= processCount < PROCESS_SLOTS
      modifies this`processCount, mem`index, mem.list, mem.ram, processes
      ensures Apart()
      ensures var image := FileBytes(disk, Iso9660.Lookup(root, comps).value);
              && (Rejected(image) ==> pid == Some(0) && Abs() == old(Abs()))
              && (!Rejected(image) ==>
                    && (pid.Some? <==> Spawned(old(Abs()), image).Some?)
                    && (pid.Some? ==> Abs() == Spawned(old(Abs()), image).value))
      ensures var image := FileBytes(disk, Iso9660.Lookup(root, comps).value);
              !Rejected(image) && pid.Some? ==>
                var p := processes[old(processCount)];
                && pid.value == p.pid == tick + old(processCount) && processCount == old(processCount) + 1
                && Loaded(mem.ram[..], p, image)
    {
      ghost var file, s := Iso9660.Lookup(root, comps).value, Abs();
      var ret, name, size, lba := Iso9660.GetFileInfo(disk, path, stray, root, comps);
      if ret == -1 { return Some(0); }
      var processBuffer := new byte[size];
      Iso9660.ReadFile(disk, path, stray, processBuffer, root, comps);
      FilledIs(processBuffer[..], processBuffer[..], disk, file);
      assert Abs() == s;
      pid := SpawnProcess(processBuffer[..]);
      if !Rejected(FileBytes(disk, file)) && pid.Some? { SpawnedLoads(s, FileBytes(disk, file)); }
    }

    /** memcpy from the kernel's file buffer, which is not part of the modelled RAM. */
    method CopyIn(dest: int, image: seq<byte>)
      requires 0 <= dest && dest + |image| <= mem.ram.Length
      modifies mem.ram
      ensures mem.ram[..] == Splice(old(mem.ram[..]), dest, image)
    {
      var k := 0;
      while k < |image|
        invariant 0 <= k <= |image|
        invariant forall a :: 0 <= a < mem.ram.Length ==>
            mem.ram[a] == if dest <= a < dest + k then image[a - dest] else old(mem.ram[a])
      {
        mem.ram[dest + k] := image[k];
        k := k + 1;
      }
    }

    /** The shift loop of kill. */
    method CloseSlot(idx: int, memSize: int)
      requires 0 <= idx < processCount <= processes.Length && memSize == processes[idx].memSize
      modifies processes
      ensures processes[..] == TableWithout(old(processes[..]), idx, processCount)
    {
      ghost var was := processes[..];
      var i := idx;
      while i < processCount - 1
        invariant idx <= i <= processCount - 1
        invariant forall k :: 0 <= k < idx || i < k < processes.Length ==> processes[k] == was[k]
        invariant forall k :: idx <= k < i ==> processes[k] == Lowered(was[k + 1], memSize)
        invariant processes[i] == if idx < i then Lowered(was[i], memSize) else was[i]
      {
        processes[i + 1] := processes[i + 1].(memStart := processes[i + 1].memStart - memSize);
        processes[i] := processes[i + 1];
        i := i + 1;
      }
      CompactIs(was, idx, processCount, p => Lowered(p, memSize), processes[..]);
    }

    method Kill(pid: int)
      requires Apart() && Shape(Abs()) && mem.Valid()
      modifies this`processCount, mem`index, mem.list, mem.ram, processes
      ensures Apart() && Abs() == Killed(old(Abs()), pid)
      ensures (forall k :: 1 <= k < old(processCount) ==> old(processes[..])[k].pid != pid) ==> Abs() == old(Abs())
    {
      ghost var s := Abs();
      var idx := GetProcessIndexFromPid(pid);
      if idx == -1 { return; }
      var memSize := processes[idx].memSize;
      var freed := mem.FreeMem(processes[idx].memStart);
      CloseSlot(idx, memSize);
      processCount := processCount - 1;
    }

    /** sendMessageToProcess up to the stamping of the caller's own copy. */
    method SendMessageToProcess(pid: int, text: seq<byte>) returns (sent: bool)
      requires Apart() && Shape(Abs()) && SlotsOk(processes[..], processCount)
      modifies processes
      ensures sent <==> Accepts(old(Abs()), pid)
      ensures Abs() == if sent then Delivered(old(Abs()), pid, text) else old(Abs())
    {
      var idx := GetProcessIndexFromPid(pid);
      if idx == -1 { return false; }
      if processes[idx].queueSize >= QUEUE_SLOTS { return false; }
      var msg := Msg(processes[schedulerProcessAt].pid, text);
      var p := processes[idx];
      processes[idx] := p.(queue := p.queue[p.queueSize := msg], queueSize := p.queueSize + 1);
      return true;
    }

    // ---------- foki/pit.c and foki/pit.asm ----------

    /** The register stores of PITISR; ebp is not among them. */
    method SaveContext(current: int)
      requires 0 <= current < processCount <= processes.Length
      modifies processes
      ensures processes[..] == old(processes[..])[current := Saved(old(processes[current]), cpu)]
    {
      var r := processes[current].regs;
      r := r.(eax := cpu.regs.eax, edx := cpu.regs.edx, ecx := cpu.regs.ecx, ebx := cpu.regs.ebx);
      r := r.(edi := cpu.regs.edi, esi := cpu.regs.esi, esp := cpu.regs.esp, flags := cpu.regs.flags);
      processes[current] := processes[current].(regs := r);
      SetProcessPc(current, cpu.pc);
    }

    method SetProcessPc(idx: int, pc: int)
      requires processCount <= processes.Length
      modifies processes
      ensures processes[..] == if 0 <= idx < processCount
                               then old(processes[..])[idx := old(processes[idx]).(pcLoc := pc)]
                               else old(processes[..])
    {
      if idx < 0 || idx >= processCount { return; }
      processes[idx] := processes[idx].(pcLoc := pc);
    }

    /** PITISR with preemption on: save the interrupted context unless its owner just died, pick the
        next process, load its segments, and leave its context in the proc_* globals. */
    method PitIsr()
      requires Apart() && Shape(Abs()) && SomeReady(processes[..], processCount)
      requires saveRegs ==> schedulerProcessAt < processCount
      modifies this`schedulerProcessAt, this`saveRegs, this`segment, this`procRegs, this`procIp, this`tick, processes
      ensures processes[..] == AfterSave(old(Abs()))
      ensures schedulerProcessAt == Next(old(processes[..]), processCount, old(schedulerProcessAt))
      ensures saveRegs && tick == old(tick) + 1
      ensures segment == BlockAt(processes[schedulerProcessAt].memStart)
      ensures procRegs == processes[schedulerProcessAt].regs && procIp == processes[schedulerProcessAt].pcLoc
    {
      ghost var s := Abs();
      var current := schedulerProcessAt;
      var next := GetNextProcess();
      if saveRegs {
        SaveContext(current);
      } else {
        saveRegs := true;
      }
      segment := BlockAt(processes[next].memStart);
      procRegs := processes[next].regs;
      procIp := processes[next].pcLoc;
      tick := tick + 1;
    }

    /** The trampoline: the proc_* globals become the CPU. */
    method Trampoline()
      modifies this`cpu, this`parked
      ensures cpu == Cpu(procRegs, procIp) && !parked
    {
      var eax, ebx, ecx, edx := procRegs.eax, procRegs.ebx, procRegs.ecx, procRegs.edx;
      var esi, edi, ebp := procRegs.esi, procRegs.edi, procRegs.ebp;
      var esp, flags := procRegs.esp, procRegs.flags;
      cpu := Cpu(Regs(eax, ebx, ecx, edx, esi, edi, esp, ebp, flags), procIp);
      parked := false;
    }

    method TimerInterrupt()
      requires Apart() && Shape(Abs()) && SomeReady(processes[..], processCount)
      requires saveRegs ==> schedulerProcessAt < processCount
      modifies this, processes
      ensures Apart() && Abs() == Timer(old(Abs()))
      ensures tick == old(tick) + 1 && saveRegs && !parked
    {
      PitIsr();
      Trampoline();
      assert mem.Abs() == old(mem.Abs());
    }

    // ---------- foki/idt.c ----------

    method Return(result: int)
      modifies this`cpu
      ensures Abs() == Machine.Return(old(Abs()), result)
    {
      cpu := cpu.(regs := cpu.regs.(eax := result));
    }

    method SysGetUserInput(off: int, size: int)
      requires Valid() && Enabled(Abs(), GetInput(off, size))
      modifies this, processes
      ensures Valid() && Abs() == Step(old(Abs()), GetInput(off, size))
    {
      GetInputKeepsInv(Abs(), off, size);
      if off > processes[schedulerProcessAt].memSize {
        Return(SRET_ERROR);
        return;
      }
      BlockCaller(off, size);
      TimerInterrupt();
    }

    method BlockCaller(off: int, size: int)
      requires Apart() && 0 <= schedulerProcessAt < processes.Length
      modifies this`processBufferLoc, this`processBufferSize, this`processWaitingForInput, this`inputWaitingPid,
               processes
      ensures Apart() && Abs() == Blocked(old(Abs()), off, size)
    {
      processBufferLoc := off + processes[schedulerProcessAt].memStart;
      processBufferSize := size;
      processWaitingForInput := true;
      processes[schedulerProcessAt] := processes[schedulerProcessAt].(waiting := true);
      inputWaitingPid := schedulerProcessAt;
    }

    method SysSpawnProcess(file: Option<seq<byte>>)
      requires Valid() && Enabled(Abs(), Spawn(file))
      modifies this, mem`index, mem.list, mem.ram, processes
      ensures Valid() && Abs() == Step(old(Abs()), Spawn(file))
    {
      SpawnKeepsInv(Abs(), file);
      var newPid := Some(0);
      if file.Some? { newPid := SpawnProcess(file.value); }
      if newPid == Some(0) { Return(SRET_ERROR); } else { Return(newPid.value); }
    }

    method SysExit()
      requires Valid() && Enabled(Abs(), Exit)
      modifies this, mem`index, mem.list, mem.ram, processes
      ensures Valid() && Abs() == Step(old(Abs()), Exit)
      ensures processCount == old(processCount) - 1 && !saveRegs && parked && segment == WaitLoop
    {
      ghost var s := Abs();
      ExitKeepsInv(s);
      KilledKeepsTables(s, s.cur);
      KillAndPark();
    }

    method KillAndPark()
      requires Valid() && Enabled(Abs(), Exit)
      modifies this, mem`index, mem.list, mem.ram, processes
      ensures Apart() && Abs() == ExitCall(old(Abs()))
    {
      Kill(processes[schedulerProcessAt].pid);
      saveRegs := false;
      segment := WaitLoop;
      parked := true;
    }

    method SysIsProcRunning(pid: int)
      requires Valid() && Enabled(Abs(), IsRunning(pid))
      modifies this`cpu
      ensures Valid() && Abs() == Step(old(Abs()), IsRunning(pid))
    {
      var i := GetProcessIndexFromPid(pid);
      if i == -1 { Return(0); } else { Return(1); }
    }

    /** Four little-endian bytes, or any others, at a physical address. */
    method Poke(at: int, bytes: seq<byte>)
      requires 0 <= at && at + |bytes| <= mem.ram.Length
      modifies mem.ram
      ensures mem.ram[..] == Splice(old(mem.ram[..]), at, bytes)
    {
      CopyIn(at, bytes);
    }

    method SysSendMessage(off: int, to: int)
      requires Valid() && Enabled(Abs(), Send(off, to))
      modifies this`cpu, mem.ram, processes
      ensures Valid() && Abs() == Step(old(Abs()), Send(off, to))
      ensures var inside := off <= old(processes[schedulerProcessAt].memSize);
              cpu.regs.eax == if inside && Accepts(old(Abs()), to) then 0 else 1
    {
      SendKeepsInv(Abs(), off, to);
      SendOwn(off, to);
    }

    method SendOwn(off: int, to: int)
      requires Valid() && Enabled(Abs(), Send(off, to))
      modifies this`cpu, mem.ram, processes
      ensures Apart() && Abs() == SendCall(old(Abs()), off, to)
    {
      OwnBlockInRam(Abs(), schedulerProcessAt);
      if off > processes[schedulerProcessAt].memSize {
        Return(SRET_ERROR);
        return;
      }
      var at := off + processes[schedulerProcessAt].memStart;
      var text := mem.ram[at + 4..at + 4 + TEXT_BYTES];
      assert text == Outgoing(Abs(), off);
      var pid := processes[schedulerProcessAt].pid;
      var sent := SendMessageToProcess(to, text);
      if !sent {
        Return(SRET_ERROR);
        return;
      }
      Poke(at, Le32(pid));
      Return(SRET_SUCCESS);
    }

    /** The shift loop of SC_MSG: the caller's queue moves up by one message. */
    method ShiftQueue()
      requires 0 <= schedulerProcessAt < processes.Length
      requires 0 < processes[schedulerProcessAt].queueSize <= |processes[schedulerProcessAt].queue|
      modifies processes
      ensures processes[..] == old(processes[..])[schedulerProcessAt := Dequeued(old(processes[schedulerProcessAt]))]
    {
      var c := schedulerProcessAt;
      ghost var p := processes[c];
      ghost var q := p.queue;
      var i := 0;
      while i < processes[c].queueSize - 1
        invariant 0 <= i <= p.queueSize - 1
        invariant processes[..] == old(processes[..])[c := processes[c]]
        invariant processes[c] == p.(queue := q) && |q| == |p.queue|
        invariant forall k :: 0 <= k < i ==> q[k] == p.queue[k + 1]
        invariant forall k :: i <= k < |q| ==> q[k] == p.queue[k]
      {
        processes[c] := processes[c].(queue := processes[c].queue[i := processes[c].queue[i + 1]]);
        q := processes[c].queue;
        i := i + 1;
      }
      CompactIs(p.queue, 0, p.queueSize, m => m, q);
      processes[c] := processes[c].(queueSize := processes[c].queueSize - 1);
    }

    method SysPopMessage(off: int)
      requires Valid() && Enabled(Abs(), Pop(off))
      modifies this`cpu, mem.ram, processes
      ensures Valid() && Abs() == Step(old(Abs()), Pop(off))
    {
      PopKeepsInv(Abs(), off);
      OwnBlockInRam(Abs(), schedulerProcessAt);
      if off > processes[schedulerProcessAt].memSize || processes[schedulerProcessAt].queueSize <= 0 {
        Return(SRET_ERROR);
        return;
      }
      var at := off + processes[schedulerProcessAt].memStart;
      var msg := processes[schedulerProcessAt].queue[0];
      assert MsgOk(Abs().table[schedulerProcessAt].queue[0]);
      Poke(at, Le32(msg.fromPid) + msg.text);
      ShiftQueue();
      Return(SRET_SUCCESS);
    }

    // ---------- foki/ps2mouse.c ----------

    method MouseMoved(ownerPid: int, text: seq<byte>)
      requires Valid() && |text| == TEXT_BYTES
      modifies processes
      ensures Valid() && Abs() == Step(old(Abs()), Mouse(ownerPid, text))
    {
      if ownerPid != 0 {
        if Accepts(Abs(), ownerPid) { MouseKeepsInv(Abs(), ownerPid, text); }
        var sent := SendMessageToProcess(ownerPid, text);
      }
    }

    // ---------- foki/ps2kbd.c ----------

    method KeyEnter()
      requires Valid()
      modifies this, mem.ram, processes
      ensures Valid() && Abs() == Step(old(Abs()), Enter)
    {
      ghost var s := Abs();
      EnterKeepsInv(s);
      if processWaitingForInput {
        processWaitingForInput := false;
        processes[inputWaitingPid] := processes[inputWaitingPid].(waiting := false);
        mem.ram[processBufferLoc + processBufferPos] := 0;
        processBufferPos := 0;
        processBufferSize := 0;
      }
      assert Abs() == Entered(s);
    }

    method KeyBackspace()
      requires Valid()
      modifies this, mem.ram
      ensures Valid() && Abs() == Step(old(Abs()), Backspace)
    {
      ghost var s := Abs();
      KeysKeepInv(s, 0);
      if processBufferPos > 0 && processWaitingForInput {
        processBufferPos := processBufferPos - 1;
        mem.ram[processBufferLoc + processBufferPos] := 0;
      }
      assert Abs() == Erased(s);
    }

    method KeyChar(c: byte)
      requires Valid()
      modifies this, mem.ram
      ensures Valid() && Abs() == Step(old(Abs()), Char(c))
    {
      KeysKeepInv(Abs(), c);
      if processWaitingForInput && processBufferPos < processBufferSize - 1 {
        mem.ram[processBufferLoc + processBufferPos] := c;
        processBufferPos := processBufferPos + 1;
      }
    }
  }
}
