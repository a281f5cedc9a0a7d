# A Dafny model of Foki

Foki is the small 32-bit kernel of the Acky system. Its user processes live one behind the other in physical memory, and
when one exits the kernel slides every later one down over the gap. This project models that kernel core, and the
algorithms around it, and proves what they promise to the programs that run on them.

## The kernel as one state machine

The centre is a state machine in these layers.

- `Memory` and `Processes` hold the allocator's block list, the process table and the round-robin scheduler. The code
  that changes them in place is here as the class `MemoryManager`, and in `Kernel`.
- `Machine` puts them together with RAM, the CPU, the tick counter and the pending keyboard request into a `State`. Its
  thirteen events are the timer interrupt, the system calls, keys, mouse messages, and the running program's own
  computations and stores. `Enabled` says when an event can happen and `Step` what it does.
- `Invariant` proves that every event keeps the kernel's invariant: the block list and the process table mirror each
  other entry by entry, blocks are adjacent and not empty, PIDs grow along the table and stay below the next one, and
  the CPU runs the process in the current slot out of that process's own block.
- `AbstractMachine` is the machine a program is promised: a map from PID to private memory, registers and inbox, with no
  addresses, no slots and no saved contexts. `Refinement` proves that every run of the kernel, as long as no key is hit
  for a request the kernel has lost, is a run of that machine (`RunRefines`). Relocation, the shifting tables and the
  saving and loading of registers cannot be observed.
- `Histories`, `Fairness` and `LineInput` prove what whole runs guarantee: PIDs are never reused, context switches are
  transparent, inboxes are queues, memory stays bounded, no ready process starves, and a typed line arrives as edited.
- `Witnesses` reaches, from the end of kmain on a concrete machine, states in which the shortfalls named below happen.

`Kernel` holds the C globals as fields and the interrupt handlers and system calls as methods that change them step by
step. Each method is proved to do exactly what `Step` says, so every theorem about runs holds of that code.

## The algorithms around it

- `Line`: Bresenham's line is the ideal line, rounded.
- `Console`: the 80 x 25 screen shows the end of an unbounded terminal.
- `Numbers`: decimal conversion, reversed in place.
- `Disk`: the sector loop, and what the announced file size means for it.
- `Iso9660` and `Iso9660Writer`: the path walk finds what a lookup in the tree of directories finds, and reads what a
  reference writer wrote.
- `Graphics`, `Bitmaps` and `Cursor`: the 1-bit bitmap decoder, a reference encoder that it inverts, and the window
  manager's mouse cursor that saves what it covers.
- `Base`: shared types, little-endian numbers, and the table left behind by a loop that shifts entries down.

## Hypotheses

The code relies on these without testing them; they are conditions of the theorems.

- A new process finds a free slot among the 256 (foki/process.c:7-33) and a file image of at least 39 bytes
  (foki/process.c:81) and at most 1 GiB. The allocator's panics end the machine.
- Message structures and input buffers that pass the kernel's own test lie inside the caller's block, and a requested
  input buffer holds at least one byte.
- When the timer fires, some process from slot 1 on is ready; `Processes.ScanEndsIff` shows that the scan in
  getNextProcessDry does not end otherwise.
- Installed memory is at most 1 GiB. The end of the heap is then below 2 GiB, although the allocator's guard lets it
  rise above the installed memory, and for programs of up to 1 GiB the guard's own 32-bit sum does not wrap. The
  allocator by itself is specified for every 32-bit size, wrap included. The tick counter does not wrap.
- Interrupts and system calls do not interrupt each other. The timer preempts from the first spawns on.
- For the refinement theorem only: no key is hit while the pending request is lost (`Refinement.NoLostKeys`). The events
  alone decide that. A process in a lower slot that exits during a request loses it, a request is lost from the start
  when the characters left over from an earlier one do not fit its buffer, and the next request makes up for a loss.
- For the window manager: the framebuffer backs the 12 x 19 box wherever the cursor can be (`Cursor.Backed`), and the
  cursor image is no larger than the box. For a drawn picture: it is no wider than a scan line (`Graphics.RowsApart`).

The system calls that only fill the caller's memory and return a value, such as SC_LOADFILE, and SC_GRAPHICS for the
process that owns the screen, have no event of their own: to the machine they are stores and computations of the caller.
For any other process SC_GRAPHICS sends a message to the owner of the screen (foki/idt.c:296-328). That is a `Mouse`
event, which stands for every message the kernel sends to the owner, followed by a computation of the caller.

## Where the code differs from what it seems to promise

- memcpy is not a memmove. It is one exactly when the destination is not strictly inside the source
  (`Memory.ForwardCopyExact`); freeMem's use of it is on the safe side.
- The out-of-memory guard (foki/memory.c:59) adds the size to the start of the last block and not to its end.
  `Memory.AllocWithinMemoryIff` gives the exact condition for staying within memory, `Memory.AllocOvershoots` an
  allocation that does not, and `Histories.MemoryBound` the bound that does hold over every run.
- The guard's sum has 32 bits, wraps for sizes near 4 GiB and then passes (`Memory.GuardWraps`). A granted block keeps
  the allocator's invariant exactly when there was no wrap (`Memory.AllocKeepsInvIff`).
- ebp is restored but never saved (foki/pit.c:26-33). `Histories.ContextSwitchExactIff` says for which processes a
  context switch is exact nevertheless, `Witnesses.EbpIsLost` shows one for which it is not.
- inputWaintingPID is a table slot and processBufferLoc a physical address; an exit adjusts neither.
  `LineInput.ExitKeepsTargetIff` and `LineInput.EnterAfterExitIff` say exactly which exits go wrong, and
  `Witnesses.RequestIsStranded` reaches one.
- There is room for one request only: a second takes the keyboard from the first (`LineInput.SecondRequestDisplaces`).
  It does not reset processBufferPos, so it inherits the characters typed so far. `LineInput.RequestTakenUpIff` says
  exactly when they fit, `LineInput.LineStartsEmptyIff` when there are none. When they do not fit, Enter writes its NUL
  behind the buffer, which can be in another process (`LineInput.StrayTerminator`; `Witnesses.LineIsOverwritten` reaches
  this with no exit involved).
- The three header bytes of a program image are tested so that only an image with all three wrong is refused
  (foki/process.c:81). `Machine.AcceptedMalformedIff` says which malformed images pass, `Machine.AcceptedMalformed` is
  one.
- A mouse message is stamped with the PID in the current slot, not with the 0 that the driver writes to mark the kernel
  (foki/ps2mouse.c:40, foki/process.c:120): `Histories.MouseStampZeroIff`
  says when it is 0 all the same, `Witnesses.MouseNamesRunner` and `Witnesses.MouseNamesKernel` reach both cases.
- printInt's ten bytes hold the digits and the NUL exactly for numbers below 1000000000 (`Numbers.DigitsOf32Bits`).
- A file read passes its sector count in 16 bits and fills the announced size exactly below 32 MiB
  (`Disk.ReadFillsIff`).
- BYTES_TO_BLOCK announces size 0 for a file that reaches into the last 2 KiB below 4 GiB (`Disk.RoundedUpIff`).
- A bitmap with a negative height, which stands for top-down rows, is decoded bottom-up like any other
  (user/apps/wm/img.c:20-26). It comes out upside down (`Bitmaps.TopDownIsFlipped`, `Bitmaps.TopDownExample`), which is
  right exactly for pictures that read the same from both ends (`Bitmaps.TopDownShownIff`).

## Model

| member | source | states |
|---|---|---|
| `Base.CompactIs` | foki/process.c:104-107 | The shift loops of kill and freeMem leave exactly one table: the entry dropped, each later one adjusted and one slot lower, and the slot out of use keeping an adjusted copy of the last entry |
| `Base.Le32RoundTrip` | foki/process.c:88-89 | A 32-bit number is stored low byte first and reads back as itself |
| `Memory.CopyForwardIsMove` | foki/memory.c:10-19 | A byte-by-byte forward copy to a lower or disjoint region has the effect of reading everything first |
| `Memory.CopyForwardAt` | foki/memory.c:10-19 | An upward-overlapping copy repeats the bytes below the overlap |
| `Memory.ForwardCopyExact` | foki/memory.c:10-19 | memcpy moves every RAM content correctly if and only if the destination is not strictly inside the source |
| `Memory.Memcpy` | foki/memory.c:10-19 | The loop over RAM is the forward copy, each byte read after the earlier writes |
| `Memory.BlocksOrdered` | foki/memory.c:58-66 | Blocks lie in address order and do not overlap |
| `Memory.HeapEndBound` | foki/memory.c:58-66 | The heap ends at most one next-to-last block above the installed memory; every block lies below its end |
| `Memory.InitHeapInv` | foki/memory.c:68-74 | initMem succeeds exactly when the kernel fits, and establishes the allocator invariant |
| `Memory.AllocKeepsInv` | foki/memory.c:58-66 | A successful allocation keeps blocks adjacent, not empty and past the guard |
| `Memory.AllocWithinMemoryIff` | foki/memory.c:59 | For every 32-bit size: an allocation succeeds within the installed memory if and only if the block fits behind the end of the heap |
| `Memory.AllocOvershoots` | foki/memory.c:59 | A program file of 2039 blocks on a 4 MiB machine passes the guard and ends above the installed memory |
| `Memory.AllocKeepsInvIff` | foki/memory.c:58-66 | For every 32-bit size: a granted block keeps the allocator invariant if and only if the sum in the guard did not wrap |
| `Memory.GuardWraps` | foki/memory.c:59 | A concrete size whose wrapped sum passes the guard |
| `Memory.TailBytesInRam` | foki/memory.c:87 | freeMem moves the bytes behind the block, or as many dead ones as the last block had, and stays in RAM |
| `Memory.FindBlock` | foki/memory.c:78-79 | The search by start address finds the block it is meant for |
| `Memory.FreeNothing` | foki/memory.c:77-93 | Where no block starts, and at address zero, nothing is freed |
| `Memory.FreeKeepsInv` | foki/memory.c:76-91 | Freeing any block keeps the allocator invariant, and the heap shrinks by its size |
| `Memory.FreeRam` | foki/memory.c:87 | Address by address: the tail slides down, everything below stays, freeing the last block touches dead bytes only |
| `Memory.FreeKeepsBlocks` | foki/memory.c:76-91 | Every surviving block, moved or not, holds the bytes it held before |
| `Memory.MemoryManager.constructor` | foki/memory.c:68-74 | A fresh allocator is valid and holds the null entry and the kernel block |
| `Memory.MemoryManager.AllocMem` | foki/memory.c:58-66 | The in-place code panics or does what the specified allocation does, and returns the old end of the heap |
| `Memory.MemoryManager.CloseGap` | foki/memory.c:81-84 | The inner loop leaves the compacted list |
| `Memory.MemoryManager.Release` | foki/memory.c:80-87 | Freeing the entry found leaves the compacted list and the slid RAM |
| `Memory.MemoryManager.FreeMem` | foki/memory.c:76-94 | The in-place code does what the specified release does, and reports whether it found the block |
| `Processes.IndexOf` | foki/process.c:35-40 | The lookup by PID finds a slot from 1 on with that PID, and fails only when there is none |
| `Processes.Next` | foki/process.c:42-53 | The scheduler picks a ready slot, never slot 0, and none that is ready comes earlier in cyclic order |
| `Processes.Probe` | foki/process.c:46-50 | The scan looks at slots of the table only, and never at slot 0 |
| `Processes.ProbeReaches` | foki/process.c:46-50 | The scan reaches every slot from 1 on after exactly its cyclic distance |
| `Processes.ScanEndsIff` | foki/process.c:46-50 | The do-while scan meets a process that is not waiting, and so ends, if and only if some slot from 1 on is ready |
| `Processes.NextTakesNearest` | foki/process.c:42-53 | Each decision removes exactly the picked slot from those still ahead in the round |
| `Processes.RoundRobin` | foki/process.c:42-58 | With m ready processes any m consecutive decisions pick each exactly once |
| `Machine.AcceptedMalformedIff` | foki/process.c:81 | A malformed image is accepted if and only if one or two of its three header bytes are right; a well-formed one always, one with none right never |
| `Machine.AcceptedMalformed` | foki/process.c:81 | A concrete malformed image that is accepted |
| `Machine.SpawnedLoads` | foki/process.c:7-33 | A spawned process has its image at the beginning of a block at the end of the heap, an empty stack of 16385 bytes behind it with esp at its last byte, flags 0x3206, the other registers 0, the entry point of the image as program counter, and tick plus count as PID |
| `Machine.OwnBlockInRam` | foki/process.c:23-29 | The block of a process in the table lies in RAM, above the kernel and below the end of the heap |
| `Invariant.IndexOfSlot` | foki/process.c:35-40 | A live process is found under its PID in its own slot: the lookup is unambiguous |
| `Invariant.TimerKeepsInv` | foki/pit.c:13-75 | A timer interrupt keeps the kernel invariant |
| `Invariant.SpawnedKeepsInv` | foki/process.c:75-94 | Creating a process keeps the two tables in lockstep and the PIDs ordered |
| `Invariant.FreeKeepsLockstep` | foki/memory.c:76-91 | The two shift loops, in freeMem and in kill, keep block list and process table in agreement |
| `Invariant.KilledKeepsTables` | foki/process.c:96-109 | kill drops exactly the slot of its victim and keeps lockstep, PID order and queues |
| `Invariant.ExitKeepsInv` | foki/idt.c:131-148 | SC_EXIT keeps the kernel invariant and parks the CPU |
| `Invariant.SendKeepsInv` | foki/idt.c:193-206 | SC_MSG send keeps the kernel invariant |
| `Invariant.PopKeepsInv` | foki/idt.c:207-226 | SC_MSG pop keeps the kernel invariant |
| `Invariant.GetInputKeepsInv` | foki/idt.c:91-111 | SC_GETUINPUT, up to the switch to another process, keeps the kernel invariant |
| `Invariant.StepKeepsInv` | foki/process.c:96-109 | The invariant of the whole machine: every enabled event keeps it |
| `Invariant.BootKeepsInv` | foki/kmain.c:69-80 | The state kmain builds satisfies the invariant, and the timer can fire |
| `Invariant.BootLoads` | foki/kmain.c:73-74 | After kmain slot 0 is loaded with the kernel process and slot 1 with init, each with the PID of its tick |
| `Invariant.FirstTickRunsInit` | foki/kmain.c:73-80 | The first timer interrupt runs init, from its entry point and out of its own block |
| `Refinement.TimerRefines` | foki/pit.c:22-55 | Saving one context and loading another changes no process as it sees itself |
| `Refinement.OwnWrite` | foki/process.c:91 | A write inside one block is seen by its owner at its own offset, and by no other process |
| `Refinement.FreePrivate` | foki/process.c:96-109 | Relocation is invisible: a surviving process finds the same bytes in its moved block |
| `Refinement.ExitView` | foki/process.c:104-108 | Each surviving process keeps memory, registers, inbox and PID through the slide of RAM and table |
| `Refinement.ExitRefines` | foki/idt.c:131-148 | SC_EXIT removes one process and changes no other; a line pending for an older process stays, one for a younger process is lost |
| `Refinement.SpawnRefines` | foki/process.c:75-94 | SC_SPAWNPROC adds one process, with the image and a stack as memory, esp at the last byte of it, flags 0x3206, other registers 0 and the entry point as program counter, and returns its PID |
| `Refinement.SendRefines` | foki/process.c:111-123 | SC_MSG send appends to one inbox, stamps the sender, and answers the sender |
| `Refinement.PopRefines` | foki/idt.c:207-226 | SC_MSG pop hands over the oldest message and removes it |
| `Refinement.GetInputRefines` | foki/idt.c:91-111 | SC_GETUINPUT makes exactly the caller wait and gives the CPU to another process |
| `Refinement.KeysRefine` | foki/ps2kbd.c:36-100 | A key for a request that is not lost changes only the buffer and the waiting flag of its process |
| `Refinement.StepRefines` | foki/process.c:96-109 | Every step of the kernel is a step of the promised machine, unless it is a key hit while the pending request is lost |
| `Refinement.RunRefines` | foki/process.c:96-109 | Over every run without keys for a lost request, flat RAM and shifting tables refine a map from PID to private memory, registers and inbox |
| `Refinement.ExitPending` | foki/process.c:104-107 | An exit in a higher slot, which is that of a younger process, leaves the pending line as it was |
| `Refinement.NothingIsLost` | foki/idt.c:103-107 | When no exit and no request loses the line, no key of the run is one for a lost request |
| `Refinement.BootRefines` | foki/kmain.c:73-80 | The refinement holds of every run from the end of kmain on; with any keys at all when no event loses the line |
| `Histories.FreshGrows` | foki/idt.c:61-63 | The bound on issued PIDs never falls, because an exit parks the CPU until the next tick |
| `Histories.PidsNeverReused` | foki/process.c:24 | All PIDs handed out in a run are distinct and larger than those alive at its start |
| `Histories.IssuedIsReturned` | foki/idt.c:122-129 | The PID handed out is returned to the caller, is new, and belongs to a live process |
| `Histories.AliveBefore` | foki/process.c:24 | Nobody comes alive but under the PID just handed out |
| `Histories.DeadStayDead` | foki/process.c:24 | A PID that has died names no process for the rest of the run |
| `Histories.OthersUntouched` | foki/process.c:96-109 | In the promised machine a step changes no memory, registers or waiting flag of a process that does not run |
| `Histories.StepKeepsSuspended` | foki/process.c:104-107 | A suspended process survives any step of others with its saved context, wherever its slot goes |
| `Histories.ContextSwitchTransparent` | foki/pit.c:17-55 | Whenever a process gets the CPU back, registers, flags and program counter are those at its suspension; ebp is the initial stack top |
| `Histories.ContextSwitchExactIff` | foki/pit.c:26-55 | The whole CPU is restored if and only if ebp was the initial stack top |
| `Histories.BlocksAddUp` | foki/memory.c:61-62 | Blocks lie end to end: each ends at the kernel size plus the sizes of the live processes up to it |
| `Histories.MemoryBound` | foki/memory.c:58-94 | Over every run the heap ends at the kernel size plus all live sizes, at most one block above the installed memory |
| `Histories.StepFifo` | foki/idt.c:193-227 | One step: inbox and accepted messages equal popped messages and new inbox |
| `Histories.ReachablePositive` | foki/process.c:24 | In every reachable state PIDs are not negative, and that of the slot the scheduler stands at is positive once anything was scheduled |
| `Histories.MouseStampZeroIff` | foki/process.c:120 | A mouse message is appended with the PID in the current slot; it names the kernel by 0 if and only if nothing has been scheduled yet and the kernel process has PID 0 |
| `Histories.InboxIsFifo` | foki/process.c:111-123 | Over every run: accepted messages come out in order, none lost, none invented, never more than sixteen waiting |
| `LineInput.KeyEdits` | foki/ps2kbd.c:63-99 | Characters and backspaces edit the line in the buffer as a bounded stack |
| `LineInput.EnterEnds` | foki/ps2kbd.c:37-46 | Enter terminates the line and makes exactly the requesting process ready |
| `LineInput.ExitKeepsTargetIff` | foki/idt.c:103-107 | An exit leaves slot and buffer address of the request valid if and only if the dying process is in a higher slot |
| `LineInput.EnterAfterExitIff` | foki/ps2kbd.c:37-43 | Enter after an exit wakes the process that asked for the line if and only if the exit was in a higher slot |
| `LineInput.SecondRequestDisplaces` | foki/idt.c:103-107 | A second request takes the keyboard away: Enter wakes the second process and the first goes on waiting |
| `LineInput.RequestTakenUpIff` | foki/idt.c:103-107 | An accepted request is taken up if and only if the characters left over fit its buffer; the line then continues them |
| `LineInput.RequestAimedIff` | foki/idt.c:103-107 | An accepted request is aimed at its process and buffer if and only if the characters left over fit |
| `LineInput.LineStartsEmptyIff` | foki/idt.c:103-107 | The line starts at the beginning of the buffer if and only if nothing is left over, as when no request is pending |
| `LineInput.StrayTerminator` | foki/ps2kbd.c:41 | When too much is left over for a buffer at the end of its block, Enter writes its NUL into the next process |
| `LineInput.StepTyping` | foki/ps2kbd.c:36-100 | Every undisturbed event keeps buffer and edited line equal and writes nothing outside the buffer |
| `LineInput.RunTyping` | foki/ps2kbd.c:36-100 | Over every undisturbed run the buffer holds the fold of the keys |
| `LineInput.LeftoverLineArrives` | foki/idt.c:91-111 | The same for a request that finds characters left over which fit: they begin the line |
| `LineInput.LineArrives` | foki/idt.c:91-111 | For a request made while no other is pending: from SC_GETUINPUT to Enter the process receives the line as edited, NUL-terminated, with the rest of its memory and all others unchanged |
| `Fairness.DecisionNears` | foki/process.c:42-58 | A decision that picks another slot brings the scheduler closer to a ready one |
| `Fairness.ExitNears` | foki/process.c:104-108 | An exit, though it makes the scheduler skip a process, does not move a ready process back in the order |
| `Fairness.StepNears` | foki/process.c:42-58 | No event moves a ready process back, and every decision moves it forward |
| `Fairness.NoStarvation` | foki/process.c:42-58 | In every run a process that stays alive and ready is picked before 65792 decisions have been made |
| `Witnesses.SomeMachine` | foki/kmain.c:69-80 | A machine with 16 MiB gets through kmain, with room for two more programs |
| `Witnesses.EbpIsLost` | foki/pit.c:26-33 | A reachable state in which a timer interrupt does not give a process its CPU back as it was |
| `Witnesses.MouseNamesRunner` | foki/ps2mouse.c:40 | A reachable state in which a mouse message names a user process as its sender |
| `Witnesses.MouseNamesKernel` | foki/ps2mouse.c:40 | A reachable state in which a mouse message names the kernel |
| `Witnesses.RequestIsStranded` | foki/idt.c:103-107 | A reachable state in which an exit leaves a process waiting for a line for good |
| `Witnesses.LineIsOverwritten` | foki/ps2kbd.c:41 | A reachable state in which the Enter of one process erases the character typed for another |
| `Kernel.Kernel.constructor` | foki/process.c:3-5 | The globals at start-up, with an initialised allocator, are the bare machine |
| `Kernel.Kernel.Boot` | foki/kmain.c:73-80 | The two spawns of kmain establish the invariant, with the kernel process in slot 0 and init in slot 1, whatever the tick counter does in between |
| `Kernel.Kernel.GetProcessIndexFromPid` | foki/process.c:35-40 | The loop returns the slot of the PID, or -1 when there is none |
| `Kernel.Kernel.GetNextProcessDry` | foki/process.c:42-53 | The do-while scan ends at the cyclically first ready slot, or -1 for an empty table |
| `Kernel.Kernel.GetNextProcess` | foki/process.c:55-58 | The scheduler position becomes the slot picked |
| `Kernel.Kernel.CreateProcessEntry` | foki/process.c:7-33 | The new slot at the end of the table describes the block at the end of the heap, with esp and ebp at its last byte; every other slot is unchanged |
| `Kernel.Kernel.SpawnProcess` | foki/process.c:75-94 | A refused image changes nothing; an accepted one does what the specified spawn does, and its PID is returned |
| `Kernel.Kernel.SpawnPath` | foki/process.c:75-94 | Spawning the path of an existing file gives the new process the blocks of that file as memory, followed by an empty stack, and starts it at the entry point in the header |
| `Kernel.Kernel.CloseSlot` | foki/process.c:104-107 | The shift loop leaves the compacted table with every later block start lowered |
| `Kernel.Kernel.Kill` | foki/process.c:96-109 | kill does what the machine says to allocator, RAM and table together |
| `Kernel.Kernel.SendMessageToProcess` | foki/process.c:111-123 | A message is accepted exactly when its receiver exists and has room, and is then the last in its queue |
| `Kernel.Kernel.SaveContext` | foki/pit.c:26-35 | The interrupted slot gets every register but ebp |
| `Kernel.Kernel.PitIsr` | foki/pit.c:13-75 | The interrupt saves unless told not to, picks, loads the globals and counts the tick |
| `Kernel.Kernel.Trampoline` | foki/pit.asm:14-38 | The CPU resumes with the context in the globals |
| `Kernel.Kernel.TimerInterrupt` | foki/pit.c:13-75 | Interrupt and trampoline together are the timer event of the machine |
| `Kernel.Kernel.SysGetUserInput` | foki/idt.c:91-111 | The system call is the GetInput event |
| `Kernel.Kernel.SysSpawnProcess` | foki/idt.c:112-130 | The system call is the Spawn event |
| `Kernel.Kernel.SysExit` | foki/idt.c:131-148 | The system call is the Exit event |
| `Kernel.Kernel.SysIsProcRunning` | foki/idt.c:149-152 | The system call is the IsRunning event |
| `Kernel.Kernel.SysSendMessage` | foki/idt.c:193-206 | The system call is the Send event |
| `Kernel.Kernel.ShiftQueue` | foki/idt.c:222-225 | The loop moves every waiting message up by one |
| `Kernel.Kernel.SysPopMessage` | foki/idt.c:207-226 | The system call is the Pop event |
| `Kernel.Kernel.MouseMoved` | foki/ps2mouse.c:37-47 | A complete mouse packet is the Mouse event |
| `Kernel.Kernel.KeyEnter` | foki/ps2kbd.c:37-47 | The key is the Enter event |
| `Kernel.Kernel.KeyBackspace` | foki/ps2kbd.c:63-68 | The key is the Backspace event |
| `Kernel.Kernel.KeyChar` | foki/ps2kbd.c:95-99 | The key is the Char event |
| `Line.OffIs` | foki/vga.c:149-150 | The error accumulated by steps equals the distance from the line scaled by the longer side |
| `Line.StepKeepsClose` | foki/vga.c:148-150 | The two tests keep the pixel within half a pixel and always step along the longer axis |
| `Line.DrawingEnds` | foki/vga.c:147 | The endpoint is met with the last pixel and not before |
| `Line.DrawLine` | foki/vga.c:140-152 | The loop ends with the pixels of the ideal line put in order; then each of them, by row and column and from one endpoint to the other, has the colour, and no other byte has changed |
| `Line.IdealLineIsExact` | foki/vga.c:140-152 | One pixel more than the longer side has steps, from endpoint to endpoint, each step at most one per axis and one along the longer, each pixel within half a pixel |
| `Console.LayoutNewline` | foki/vga.c:55-58 | A newline ends a paragraph: what follows is laid out as if it stood alone |
| `Console.LayoutParagraph` | foki/vga.c:67-71 | Without newlines character k stands in row k/80, column k%80 |
| `Console.CursorMoves` | foki/vga.c:55-71 | The cursor offset follows the end of the terminal |
| `Console.NewTop` | foki/vga.c:74-76 | The window moves down one line exactly when the cursor leaves the screen |
| `Console.CursorOnScreen` | foki/vga.c:74-76 | The cursor offset is even and on the screen |
| `Console.CellPut` | foki/vga.c:67-71 | Writing at the cursor shows the terminal with the character added |
| `Console.ScrollShows` | foki/vga.c:75-81 | Moving rows up and blanking the last shows the terminal from the next line on |
| `Console.ScreenShows` | foki/vga.c:53-84 | Row by row and column by column the screen shows the last 25 lines, spaces where a line has ended, and the colour |
| `Console.Screen.ClearScr` | foki/vga.c:99-106 | A cleared screen shows the empty terminal |
| `Console.Screen.CopyRowsUp` | foki/vga.c:75 | The overlapping copy moves each of the upper 24 rows up by one |
| `Console.Screen.Scroll` | foki/vga.c:74-81 | Rows move up, the last is blank in the current colour, the cursor is at its start |
| `Console.Screen.PrintChar` | foki/vga.c:53-84 | After each character the screen shows the last 25 lines of everything printed, and the cursor is on it |
| `Console.Screen.Print` | foki/vga.c:86-91 | Printing a string is printing its characters |
| `Numbers.BackwardsIsNumeral` | foki/vga.c:31-34 | The digits read backwards are the numeral of the number, without leading zero |
| `Numbers.NumeralParts` | foki/vga.c:31-34 | The last digit is the remainder by ten, and what stands before it the numeral of the tenth part |
| `Numbers.NumeralIsUnique` | foki/vga.c:22-47 | A number has exactly one numeral, so what intToStr writes is the only right answer |
| `Numbers.DigitsBound` | foki/vga.c:31-34 | A number takes at most d digits if and only if it is below the d-th power of ten |
| `Numbers.DigitsOf32Bits` | foki/vga.c:93-97 | Eleven bytes are enough for 32 bits; ten are enough exactly below 1000000000 |
| `Numbers.StoreBackwards` | foki/vga.c:31-34 | The first loop stores the digits lowest first and nothing else |
| `Numbers.ReverseInPlace` | foki/vga.c:38-46 | The second loop reverses the digits in place and leaves what is behind them |
| `Numbers.IntToStr` | foki/vga.c:22-47 | The buffer holds the numeral and a NUL; nothing behind them changes |
| `Disk.AtaRead` | foki/ata.c:71-98 | Each byte of the sectors is written exactly once and in disk order; an absent drive writes nothing |
| `Disk.CommonRead` | foki/fs.c:10-18 | Four sectors a block, with the 16-bit sector count and the 32-bit sector number of the code |
| `Disk.RoundedUpIff` | foki/fs.h:12 | The announced size is the least multiple of 2048 not below the size if and only if that is at most 0xFFFFF800; above it is 0 |
| `Disk.ReadStartIff` | foki/fs.c:13 | A read starts at its block modulo 2 TiB, so at its block if and only if the block number is below 0x40000000 |
| `Disk.ReadFillsIff` | foki/fs.c:69-76 | A read delivers the announced size modulo 32 MiB, so exactly that size if and only if it is below 32 MiB, and never more |
| `Disk.ReadExtent` | foki/fs.c:69-76 | Below 32 MiB bytes [0, size) are the file in disk order and nothing else is written |
| `Iso9660.Find` | foki/fs.c:122-141 | The first entry with a name, if there is one |
| `Iso9660.LookupFile` | foki/fs.c:122-141 | A name leads to the file whose entry has the name with ;1 behind it |
| `Iso9660.LookupDirectory` | foki/fs.c:109-144 | A path leads through the directory with its first name to where its rest leads from there |
| `Iso9660.PathExample` | foki/fs.c:78 | The path A:/D/F, letter by letter |
| `Iso9660.Strcmp` | foki/memory.c:38-44 | Zero exactly for equal strings |
| `Iso9660.LoadedName` | foki/fs.c:128-129 | A copied name reads back as itself; self and parent records never look like a wanted name |
| `Iso9660.ReadRecord` | foki/fs.c:123-140 | One record: whether its name is the wanted and the final one, whether it is a file, its size and length |
| `Iso9660.ScanDirectory` | foki/fs.c:121-141 | The scan of one directory block ends at the first entry with the wanted name and yields its location and size |
| `Iso9660.CopyComponent` | foki/fs.c:111-117 | The next path component is copied and terminated |
| `Iso9660.JoinedEnds` | foki/fs.c:89-95 | The last component follows the last slash |
| `Iso9660.FinalName` | foki/fs.c:88-95 | The final name is the last component with the version behind it |
| `Iso9660.WalkOne` | foki/fs.c:109-144 | One turn of the walk enters the named directory, or finds the file when the path ends |
| `Iso9660.WalkPath` | foki/fs.c:104-144 | The walk ends at the file that the rest of the path leads to |
| `Iso9660.GetFileInfo` | foki/fs.c:79-152 | For every well-formed image and path of an existing file: success, its name with the version, its extent, and its size as BYTES_TO_BLOCK rounds it, as a lookup in the tree says |
| `Iso9660.LookedUp` | foki/fs.c:127-136 | A file found in the tree has a 32-bit extent and size |
| `Iso9660.ReadFile` | foki/fs.c:69-76 | For every path of an existing file below 32 MiB and 2 TiB: the buffer holds the blocks of the file from its extent on, and nothing else is written |
| `Iso9660Writer.RecordReads` | foki/fs.c:123-136 | A record written field by field after section 9.1 of ECMA-119 is read as its entry |
| `Iso9660Writer.WrittenHolds` | foki/fs.c:120-141 | A directory block that was written reads as its entries, in every directory of the tree |
| `Iso9660Writer.WrittenRootHolds` | foki/fs.c:97-101 | An image that was written satisfies all that the path walk asks for, the root record at byte 156 of block 16 included |
| `Graphics.PutPixel` | foki/vga.c:154-160 | The three bytes at y scan lines and x pixels get the colour, and no other byte changes |
| `Graphics.PixelInLine` | foki/vga.c:155 | Putting a pixel changes three bytes of one scan line at the place of its column, and no other scan line |
| `Graphics.GetPixel` | foki/vga.c:162-171 | The three bytes at y scan lines and x pixels |
| `Graphics.DrawableIff` | user/apps/wm/img.c:15-18 | Drawn are exactly the files that begin with BM and have depth 1 |
| `Graphics.PaintedOutside` | user/apps/wm/img.c:25-36 | Painting changes no byte outside the painted cells |
| `Graphics.PaintedInside` | user/apps/wm/img.c:25-36 | A painted cell that no other overlaps shows the colour |
| `Graphics.ParseBmp` | user/apps/wm/img.c:13-37 | Exactly the lit pixels are painted; a file whose bytes do not begin with BM, or do not say one bit per pixel, paints nothing |
| `Bitmaps.BitsShift` | user/apps/wm/img.c:30-32 | Shifting a packed row drops its last pixels |
| `Bitmaps.PackedBit` | user/apps/wm/img.c:29-32 | Bit 7-k of a packed byte is its k-th pixel |
| `Bitmaps.PackedRow` | user/apps/wm/img.c:22 | A row of the encoder is the least multiple of four bytes that holds its pixels |
| `Bitmaps.HeadersRead` | user/apps/wm/img.c:14-23 | Data offset, width, height and depth read back as written, for every 16-bit depth |
| `Bitmaps.BmpHeader` | user/apps/wm/img.c:14-23 | Of a file that the encoder wrote, bottom-up or top-down, the decoder reads the data offset, width, height and depth that were written |
| `Bitmaps.PackedRowBit` | user/apps/wm/img.c:29-32 | The bit the decoder tests within a row is the pixel of that column |
| `Bitmaps.RowUpAt` | user/apps/wm/img.c:26 | Where the decoder looks for a row of a bottom-up file, the encoder has put that row |
| `Bitmaps.RowDownAt` | user/apps/wm/img.c:26 | In a top-down file the encoder has put there the row as far from the other end |
| `Bitmaps.DecodeInvertsEncode` | user/apps/wm/img.c:13-37 | Decoding inverts encoding: of the file of any picture, with any colour table and padding, exactly the pixels of the picture are lit |
| `Bitmaps.BmpComplete` | user/apps/wm/img.c:25-36 | Decoding an encoded file draws it and reads nothing outside it |
| `Bitmaps.TopDownIsFlipped` | user/apps/wm/img.c:20-26 | A file whose rows run from the top, marked by a negative height, is shown upside down |
| `Bitmaps.TopDownShownIff` | user/apps/wm/img.c:20-26 | It is shown right if and only if its rows read the same from both ends |
| `Bitmaps.TopDownExample` | user/apps/wm/img.c:20-26 | A concrete two-pixel file that comes out the wrong way round |
| `Graphics.CellsApart` | foki/vga.c:155 | Different pixels of a picture no wider than a scan line have cells that do not overlap |
| `Graphics.LitShown` | user/apps/wm/img.c:25-36 | Drawing gives the bytes of a pixel the colour where it is lit, and leaves them where it is not |
| `Bitmaps.PictureShown` | user/apps/wm/img.c:13-37 | Encoding a picture and drawing the file shows it: colour where it is set, the old bytes where it is not |
| `Cursor.BoxIff` | user/apps/wm/wm.c:163-170 | The saved box covers the bytes of 12 columns and 19 rows of pixels from the cursor on, and no others |
| `Cursor.CursorFits` | user/apps/wm/wm.c:173 | An image no larger than 12 x 19 stays in the framebuffer wherever the cursor can be |
| `Cursor.RowsInBox` | user/apps/wm/wm.c:120-131 | Every byte the image paints lies in the 228 saved cells |
| `Cursor.CursorOutsideBox` | user/apps/wm/wm.c:173 | Drawing the cursor changes nothing outside the saved box |
| `Cursor.DotShown` | user/apps/wm/window.c:29-43 | A pixel of a dragged window that no later one overlaps is shown, by row and column |
| `Cursor.DotsElsewhere` | user/apps/wm/window.c:29-43 | A byte that belongs to none of its pixels is as it was |
| `Cursor.Clamped` | user/apps/wm/wm.c:157-160 | The point of the range nearest to the coordinate |
| `Cursor.WindowManager.constructor` | user/apps/wm/wm.c:101-110 | At start-up the screen is the desktop with the cursor on it, and the background is saved |
| `Cursor.WindowManager.SaveBackground` | user/apps/wm/wm.c:163-170 | mouseBG holds the scene under the box |
| `Cursor.WindowManager.DrawCursor` | user/apps/wm/wm.c:173 | The screen is the scene with the cursor painted on it |
| `Cursor.WindowManager.RestoreBackground` | user/apps/wm/wm.c:120-131 | Putting the saved cells back brings back the scene, also where the box runs past the end of a row |
| `Cursor.WindowManager.DrawDots` | user/apps/wm/window.c:29-43 | A dragged window changes the scene by its pixels |
| `Cursor.WindowManager.MouseMoved` | user/apps/wm/wm.c:115-173 | One message: the scene changes by the dragged window only, the cursor moves by the message, or to the nearest point on the screen, and shows the buttons |
| `Cursor.WindowManager.HandleMovements` | user/apps/wm/wm.c:115-173 | For every sequence of messages the screen is the cursor-free scene with the cursor painted at the position reached |

## Left out

- Process names, the serial log and the information calls SC_GETPORCNUM, SC_GETPROCINFO and SC_GETPROCPIDFROMIDX: plain
  reads of the table.
- LDT limits, segment selectors and pointers outside the caller's block: a program's stores are taken to be inside its
  own block.
- The interrupt frame and the register pushes at system call entry: a CPU here is its general registers, flags and
  program counter.
- Timer interrupts before preemption is switched on, other than the ticks they count between kmain's two spawns.
- The panics of herr, fault handlers, intHerr (which passes a table index to kill), shutdown and reboot.
- Port I/O, interrupt controllers, ATA identification and waits, the GDT and IDT, real-mode calls, ACPI and multiboot.
  The disk is a function from byte offsets to bytes.
- The kernel's stack, on which spawnProcess buffers a file: the buffer is a value beside the modelled RAM.
- Key translation, modifier keys, the layout switch and the echo of typed characters: a key event carries its character.
- Assembling a mouse packet from three interrupts, and the text of its message.
- Lookup of paths that name no file: the walk may then read past the end of the path.
- The drive table and partition parsing; the slave drive, which commonRead does not read; memcmp, memset and strcpy as
  functions of their own.
- Drawing requests of other programs, window hover, window creation and the power button in the window manager; a
  dragged window is the list of pixels it draws, put into a scene with the cursor hidden.
- Kernel.Kernel.SpawnProcess: takes the file's bytes as an argument in place of its path; SpawnPath reads them first,
  for files that exist.
- Kernel.Kernel.SysExit: does not model the wait loop's own instructions, because they change nothing until the next
  timer interrupt.
- Console.Screen.PrintChar: excludes backspace, because the code tests the absolute address and not the column there.
- Console.Screen.ClearScr: asks for video memory one cell longer than the screen, because the loop writes there.
- Cursor.WindowManager.MouseMoved: pixel coordinates are not truncated to 16 bits; those of the cursor stay below 1036.
- LineInput.LineArrives: does not cover a second request or the exit of a lower slot while a line is typed, because the
  line then goes wrong; SecondRequestDisplaces and EnterAfterExitIff state how.
- Iso9660.GetFileInfo: directories fill one block ending in a zero length byte, and names have at most 31 bytes.
