/** The keyboard as a line editor: what a process that asked for input finds in its buffer, whatever
    else runs, is born, sends messages or exits meanwhile. */
module LineInput {
  import opened Base
  import opened Memory
  import opened Processes
  import opened Machine
  import opened Invariant
  import opened AbstractMachine
  import opened Refinement
  import opened Histories

  /** The user's view of the keys: a line with at most cap characters. */
  function Edited(line: seq<byte>, e: Event, cap: int): seq<byte> {
    match e
    case Char(c) => if |line| < cap then line + [c] else line
    case Backspace => if line != [] then line[..|line| - 1] else line
    case _ => line
  }

  function EditedBy(line: seq<byte>, es: seq<Event>, cap: int): seq<byte>
    decreases |es|
  {
    if es == [] then line else EditedBy(Edited(line, es[0], cap), es[1..], cap)
  }

  /** A line is being typed for a process: the buffer [off, off+size) of its memory starts with the
      line so far, and nothing outside the buffer differs from the memory it had. */
  ghost predicate TypingIn(a: AState, pid: int, off: int, size: int, line: seq<byte>, mem: seq<byte>) {
    && a.pending == Some(Pending(pid, off, size, |line|))
    && a.typed == |line| < size
    && pid in a.procs && a.running != Some(pid)
    && a.procs[pid].waiting
    && 0 <= off && off + size <= |mem| == |a.procs[pid].mem|
    && a.procs[pid].mem[off..off + |line|] == line
    && (forall o :: 0 <= o < |mem| && !(off <= o < off + size) ==> a.procs[pid].mem[o] == mem[o])
  }

  ghost predicate Typing(s: State, pid: int, off: int, size: int, line: seq<byte>, mem: seq<byte>)
    requires Inv(s)
  {
    TypingIn(Abs(s), pid, off, size, line, mem)
  }

  /** No new request is made, no process in a lower slot exits, and the line is not finished. */
  ghost predicate Undisturbed(s: State, e: Event)
    requires Shape(s)
  {
    && (e.GetInput? ==> e.off > s.table[s.cur].memSize)
    && (e.Exit? ==> s.input.slot < s.cur)
    && !e.Enter?
  }

  ghost predicate RunUndisturbed(s: State, es: seq<Event>)
    requires Inv(s) && RunEnabled(s, es)
    decreases |es|
  {
    es != [] ==> Undisturbed(s, es[0]) && RunUndisturbed(After(s, es[0]), es[1..])
  }

  // ---------- one step ----------

  lemma KeyEdits(a: AState, e: Event, a': AState, pid: int, off: int, size: int, line: seq<byte>, mem: seq<byte>)
    requires TypingIn(a, pid, off, size, line, mem) && AStep(a, e, a') && (e.Char? || e.Backspace?)
    ensures TypingIn(a', pid, off, size, Edited(line, e, size - 1), mem)
  {
    var m, m' := a.procs[pid].mem, a'.procs[pid].mem;
    var line' := Edited(line, e, size - 1);
    assert m'[off..off + |line'|] == line' by {
      forall k | 0 <= k < |line'| ensures m'[off + k] == line'[k] {
        if k < |line| { assert m[off..off + |line|][k] == m[off + k]; }
      }
    }
  }

  lemma EnterEnds(a: AState, a': AState, pid: int, off: int, size: int, line: seq<byte>, mem: seq<byte>)
    requires TypingIn(a, pid, off, size, line, mem) && AStep(a, Enter, a')
    ensures pid in a'.procs && a'.procs == a.procs[pid := a'.procs[pid]]
    ensures var v := a'.procs[pid];
            && !v.waiting && |v.mem| == |mem| && v.cpu == a.procs[pid].cpu && v.inbox == a.procs[pid].inbox
            && v.mem[off..off + |line| + 1] == line + [0]
            && (forall o :: 0 <= o < |mem| && !(off <= o < off + size) ==> v.mem[o] == mem[o])
    ensures a'.pending == None && a'.typed == 0
  {
    var m, m' := a.procs[pid].mem, a'.procs[pid].mem;
    forall k | 0 <= k <= |line| ensures m'[off..off + |line| + 1][k] == (line + [0])[k] {
      if k < |line| { assert m[off..off + |line|][k] == m[off + k]; }
    }
  }

  lemma OthersKeepTyping(a: AState, e: Event, a': AState, pid: int, off: int, size: int,
                         line: seq<byte>, mem: seq<byte>)
    requires TypingIn(a, pid, off, size, line, mem) && AStep(a, e, a') && !IsKey(e)
    requires a'.pending == a.pending && a'.typed == a.typed && a'.running != Some(pid)
    ensures TypingIn(a', pid, off, size, Edited(line, e, size - 1), mem)
  {
    OthersUntouched(a, e, a', pid);
  }

  /** A waiting process does not have the CPU. */
  lemma WaiterOffCpu(s: State, pid: int)
    requires Inv(s) && Alive(s, pid) && ProcOf(s, pid).waiting
    ensures Abs(s).running != Some(pid)
  {
    if User(s) && s.table[s.cur].pid == pid { IndexOfSlot(s.table, s.count, s.cur, Fresh(s)); }
  }

  /** An exit leaves the pending request aimed at its process exactly when the dying process sits in
      a higher slot; otherwise slot and buffer address both go stale. */
  lemma ExitKeepsTargetIff(s: State)
    requires Inv(s) && User(s) && Aimed(s)
    ensures var s' := ExitCall(s); var j := s.input.slot;
            Shape(s') && s'.input == s.input
            && ((j < s'.count && s'.table[j].pid == s.table[j].pid
                 && s'.input.loc - s'.table[j].memStart == s.input.loc - s.table[j].memStart)
                <==> j < s.cur)
  {
    KilledKeepsTables(s, s.cur);
    var j := s.input.slot;
    if s.cur < j < s.count - 1 { assert Older(s.table[j], s.table[j + 1]); }
  }

  /** What Enter does to a process in slot k: it stops waiting exactly if the request names its slot. */
  lemma EnterReleases(s: State, k: int)
    requires Inv(s) && s.input.waiting && 1 <= k < s.count && s.table[k].waiting
    ensures var s' := After(s, Enter);
            Alive(s', s.table[k].pid) && (!ProcOf(s', s.table[k].pid).waiting <==> k == s.input.slot)
  {
    var s' := After(s, Enter);
    IndexOfSlot(s'.table, s'.count, k, Fresh(s'));
  }

  /** Enter after an exit wakes the process that asked for the line if and only if the process that
      exited sat in a higher slot. */
  lemma EnterAfterExitIff(s: State)
    requires Inv(s) && User(s) && Aimed(s)
    ensures var pid := s.table[s.input.slot].pid; var s' := After(After(s, Exit), Enter);
            Alive(s', pid) && (!ProcOf(s', pid).waiting <==> s.input.slot < s.cur)
  {
    WaiterAfterExit(s);
    EnterReleases(After(s, Exit), if s.input.slot < s.cur then s.input.slot else s.input.slot - 1);
  }

  lemma WaiterAfterExit(s: State)
    requires Inv(s) && User(s) && Aimed(s)
    ensures var j := s.input.slot; var s1 := ExitCall(s); var k := if j < s.cur then j else j - 1;
            && 1 <= k < s1.count <= |s1.table| && s1.input == s.input && j != s.cur
            && s1.table[k].pid == s.table[j].pid && s1.table[k].waiting
  {
    KilledKeepsTables(s, s.cur);
  }

  /** A second request takes the keyboard away from the first: Enter wakes the second process, and
      the first goes on waiting. */
  lemma SecondRequestDisplaces(s: State, off: int, size: int)
    requires Inv(s) && Aimed(s) && Enabled(s, GetInput(off, size)) && off <= s.table[s.cur].memSize
    ensures var first, second := s.table[s.input.slot].pid, s.table[s.cur].pid;
            var s' := After(After(s, GetInput(off, size)), Enter);
            && Alive(s', first) && ProcOf(s', first).waiting
            && Alive(s', second) && !ProcOf(s', second).waiting
  {
    var s1 := After(s, GetInput(off, size));
    RequestLeavesSlots(s, off, size);
    EnterReleases(s1, s.input.slot);
    EnterReleases(s1, s.cur);
  }

  ghost predicate SamePlace(p: Process, p': Process) {
    p'.pid == p.pid && p'.memStart == p.memStart && p'.memSize == p.memSize
  }

  lemma RequestLeavesSlots(s: State, off: int, size: int)
    requires Inv(s) && Enabled(s, GetInput(off, size)) && off <= s.table[s.cur].memSize
    ensures var s1 := After(s, GetInput(off, size));
            && s1.count == s.count && s1.heap == s.heap && s1.table[s.cur].waiting
            && s1.input == Input(s.table[s.cur].memStart + off, s.input.pos, size, true, s.cur)
            && (forall k :: 0 <= k < s.count ==> SamePlace(s.table[k], s1.table[k]))
            && (forall k :: 0 <= k < s.count && s.table[k].waiting ==> s1.table[k].waiting)
  {
  }

  lemma StepTyping(s: State, e: Event, pid: int, off: int, size: int, line: seq<byte>, mem: seq<byte>)
    requires Inv(s) && Enabled(s, e) && Undisturbed(s, e) && Typing(s, pid, off, size, line, mem)
    ensures Typing(After(s, e), pid, off, size, Edited(line, e, size - 1), mem)
  {
    var s' := After(s, e);
    assert Aimed(s);
    StepRefines(s, false, e);
    if e.Char? || e.Backspace? {
      KeyEdits(Abs(s), e, Abs(s'), pid, off, size, line, mem);
    } else {
      RequestSurvives(s, e);
      StillWaits(s, e, pid);
      OthersKeepTyping(Abs(s), e, Abs(s'), pid, off, size, line, mem);
    }
  }

  lemma RequestSurvives(s: State, e: Event)
    requires Inv(s) && Enabled(s, e) && Undisturbed(s, e) && !IsKey(e) && Aimed(s)
    ensures Abs(After(s, e)).pending == Abs(s).pending && Abs(After(s, e)).typed == Abs(s).typed
  {
    if e.Exit? { ExitPending(s); }
    else {
      EventRefines(s, e);
      if e.GetInput? {
        ProcAt(s, s.cur);
        OwnBlockInRam(s, s.cur);
      }
      LineIrrelevant(Abs(s), e, Abs(After(s, e)));
    }
  }

  lemma StillWaits(s: State, e: Event, pid: int)
    requires Inv(s) && Enabled(s, e) && !IsKey(e) && pid in Abs(s).procs && Abs(s).procs[pid].waiting
    requires Abs(s).running != Some(pid)
    ensures Abs(After(s, e)).running != Some(pid)
  {
    var s' := After(s, e);
    StepRefines(s, true, e);
    OthersUntouched(Seen(s, true), e, Seen(s', LostAfter(s, true, e)), pid);
    AliveInAbs(s', pid);
    WaiterOffCpu(s', pid);
  }

  // ---------- a whole line ----------

  lemma {:induction false} RunTyping(s: State, es: seq<Event>, pid: int, off: int, size: int,
                                     line: seq<byte>, mem: seq<byte>)
    requires Inv(s) && RunEnabled(s, es) && RunUndisturbed(s, es) && Typing(s, pid, off, size, line, mem)
    ensures Typing(Run(s, es), pid, off, size, EditedBy(line, es, size - 1), mem)
    decreases |es|
  {
    if es != [] {
      StepTyping(s, es[0], pid, off, size, line, mem);
      RunTyping(After(s, es[0]), es[1..], pid, off, size, Edited(line, es[0], size - 1), mem);
    }
  }

  /** The first pos bytes of the buffer at off. */
  function LeftOver(mem: seq<byte>, off: int, pos: int): seq<byte> {
    if 0 <= off && 0 <= pos && off + pos <= |mem| then mem[off..off + pos] else []
  }

  /** A process with memory mem asks for a line while pos characters are left over. */
  ghost predicate Requests(a: AState, off: int, size: int, a': AState, pid: int, mem: seq<byte>, pos: int) {
    && AStep(a, GetInput(off, size), a') && a.running == Some(pid)
    && 0 <= off && 1 <= size && off + size <= |mem| && 0 <= a.typed == pos
    && pid in a.procs && a.procs[pid].mem == mem
    && (pid in a'.procs && a'.procs[pid].waiting ==> a'.running != Some(pid))
  }

  lemma RequestPends(a: AState, off: int, size: int, a': AState, pid: int, mem: seq<byte>, pos: int)
    requires Requests(a, off, size, a', pid, mem, pos)
    ensures TypingIn(a', pid, off, size, LeftOver(mem, off, pos), mem) <==> pos < size
  {
  }

  lemma RequestSteps(s: State, pid: int, off: int, size: int)
    requires Inv(s) && Enabled(s, GetInput(off, size)) && Has(s, pid) && off <= s.table[s.cur].memSize
    ensures Alive(s, pid)
    ensures Requests(Abs(s), off, size, Abs(After(s, GetInput(off, size))), pid, ProcOf(s, pid).mem, s.input.pos)
  {
    RunnerSeen(s, pid);
    EventRefines(s, GetInput(off, size));
    var s' := After(s, GetInput(off, size));
    if pid in Abs(s').procs && Abs(s').procs[pid].waiting { WaiterInAbs(s', pid); }
  }

  /** An accepted request is taken up if and only if the characters left over from an earlier request
      fit its buffer. The line then starts with as many bytes as the buffer had in their place. */
  lemma RequestTakenUpIff(s: State, pid: int, off: int, size: int)
    requires Inv(s) && Enabled(s, GetInput(off, size)) && Has(s, pid) && off <= s.table[s.cur].memSize
    ensures Alive(s, pid)
    ensures var mem := ProcOf(s, pid).mem;
            Typing(After(s, GetInput(off, size)), pid, off, size, LeftOver(mem, off, s.input.pos), mem)
            <==> s.input.pos < size
  {
    RequestSteps(s, pid, off, size);
    RequestPends(Abs(s), off, size, Abs(After(s, GetInput(off, size))), pid, ProcOf(s, pid).mem, s.input.pos);
  }

  /** It is taken up exactly if it stays aimed at its process and buffer. */
  lemma RequestAimedIff(s: State, off: int, size: int)
    requires Inv(s) && Enabled(s, GetInput(off, size)) && off <= s.table[s.cur].memSize
    ensures Aimed(After(s, GetInput(off, size))) <==> s.input.pos < size
  {
    RequestLeavesSlots(s, off, size);
  }

  /** The line starts empty if and only if nothing is left over. A caller can tell when no request is
      pending: nothing is left over then. */
  lemma LineStartsEmptyIff(s: State, pid: int, off: int, size: int)
    requires Inv(s) && Enabled(s, GetInput(off, size)) && Has(s, pid) && off <= s.table[s.cur].memSize
    ensures Alive(s, pid)
    ensures Typing(After(s, GetInput(off, size)), pid, off, size, [], ProcOf(s, pid).mem) <==> s.input.pos == 0
    ensures !s.input.waiting ==> s.input.pos == 0
  {
    RequestTakenUpIff(s, pid, off, size);
    if s.input.pos == 0 { assert LeftOver(ProcOf(s, pid).mem, off, 0) == []; }
  }

  /** What the condition keeps away. A request at the end of its block, with too many characters left
      over: Enter writes its NUL into the block of the next process. */
  lemma StrayTerminator(s: State, off: int, size: int)
    requires Inv(s) && Enabled(s, GetInput(off, size)) && off <= s.table[s.cur].memSize == off + size
    requires size <= s.input.pos && s.cur + 1 < s.count && s.input.pos - size < s.table[s.cur + 1].memSize
    ensures var victim := s.table[s.cur + 1].pid; var s' := After(After(s, GetInput(off, size)), Enter);
            && Alive(s, victim) && Alive(s', victim) && s.input.pos - size < |ProcOf(s, victim).mem|
            && ProcOf(s', victim).mem == ProcOf(s, victim).mem[s.input.pos - size := 0]
  {
    NextBlock(s);
    RequestWritesAt(s, off, size);
    SlotWritten(s, After(After(s, GetInput(off, size)), Enter), s.cur + 1, s.input.pos - size);
  }

  lemma SlotWritten(s: State, s': State, k: int, o: int)
    requires Inv(s) && Inv(s') && 1 <= k < s.count == s'.count && 0 <= o < s.table[k].memSize
    requires 0 <= s.table[k].memStart + o < |s.heap.ram|
    requires SamePlace(s.table[k], s'.table[k]) && s'.heap.ram == s.heap.ram[s.table[k].memStart + o := 0]
    ensures var pid := s.table[k].pid;
            && Alive(s, pid) && Alive(s', pid) && o < |ProcOf(s, pid).mem|
            && ProcOf(s', pid).mem == ProcOf(s, pid).mem[o := 0]
  {
    IndexOfSlot(s.table, s.count, k, Fresh(s));
    IndexOfSlot(s'.table, s'.count, k, Fresh(s'));
    OwnBlockInRam(s, k);
    var p := s.table[k];
    assert Private(s.heap.ram[p.memStart + o := 0], p) == Private(s.heap.ram, p)[o := 0];
  }

  lemma NextBlock(s: State)
    requires Inv(s) && User(s) && s.cur + 1 < s.count
    ensures s.table[s.cur + 1].memStart == s.table[s.cur].memStart + s.table[s.cur].memSize
  {
    var k := s.cur + 2;
    assert Mirrors(s.heap.list[k], s.table[s.cur]) && Mirrors(s.heap.list[k + 1], s.table[s.cur + 1]);
    assert Placed(s.heap.list, k + 1, s.heap.installed);
  }

  lemma RequestWritesAt(s: State, off: int, size: int)
    requires Inv(s) && Enabled(s, GetInput(off, size)) && off <= s.table[s.cur].memSize
    ensures var s' := After(After(s, GetInput(off, size)), Enter);
            var at := s.table[s.cur].memStart + off + s.input.pos;
            && 0 <= at < |s.heap.ram| && s'.heap.ram == s.heap.ram[at := 0] && s'.count == s.count
            && forall k :: 0 <= k < s.count ==> SamePlace(s.table[k], s'.table[k])
  {
    RequestLeavesSlots(s, off, size);
    EnterWritesAt(After(s, GetInput(off, size)));
  }

  lemma EnterWritesAt(s: State)
    requires Inv(s) && s.input.waiting
    ensures var s' := After(s, Enter); var at := s.input.loc + s.input.pos;
            && 0 <= at < |s.heap.ram| && s'.heap.ram == s.heap.ram[at := 0] && s'.count == s.count
            && forall k :: 0 <= k < s.count ==> SamePlace(s.table[k], s'.table[k])
  {
  }

  lemma WaiterInAbs(s: State, pid: int)
    requires Inv(s) && pid in Abs(s).procs && Abs(s).procs[pid].waiting
    ensures Abs(s).running != Some(pid)
  {
    AliveInAbs(s, pid);
    WaiterOffCpu(s, pid);
  }

  /** Between s2 and s3 the process is released with the line, NUL-terminated, in its buffer. Outside
      the buffer its memory is mem, and no other process changes. */
  ghost predicate LineDelivered(s2: State, s3: State, pid: int, off: int, size: int, line: seq<byte>, mem: seq<byte>)
    requires Inv(s2) && Inv(s3)
  {
    && Alive(s2, pid) && Alive(s3, pid)
    && ProcOf(s2, pid).waiting && !ProcOf(s3, pid).waiting
    && |line| < size && 0 <= off && off + size <= |ProcOf(s3, pid).mem| == |mem|
    && ProcOf(s3, pid).mem[off..off + |line| + 1] == line + [0]
    && (forall o :: 0 <= o < |mem| && !(off <= o < off + size) ==> ProcOf(s3, pid).mem[o] == mem[o])
    && Abs(s3).procs == Abs(s2).procs[pid := ProcOf(s3, pid)]
  }

  lemma EnterDelivers(s: State, pid: int, off: int, size: int, line: seq<byte>, mem: seq<byte>)
    requires Inv(s) && Typing(s, pid, off, size, line, mem)
    ensures LineDelivered(s, After(s, Enter), pid, off, size, line, mem)
  {
    var s' := After(s, Enter);
    assert Aimed(s);
    EventRefines(s, Enter);
    EnterEnds(Abs(s), Abs(s'), pid, off, size, line, mem);
    AliveInAbs(s, pid);
    AliveInAbs(s', pid);
  }

  /** From SC_GETUINPUT to Enter: whatever undisturbed events happen in between, the process finds
      the line the user edited, NUL-terminated, at its buffer; nothing outside the buffer was
      written; Enter makes it ready and touches no other process. The line continues the characters
      left over from an earlier request, if they fit. */
  lemma LeftoverLineArrives(s: State, pid: int, off: int, size: int, es: seq<Event>)
    requires Inv(s) && Enabled(s, GetInput(off, size)) && Has(s, pid)
    requires off <= s.table[s.cur].memSize && s.input.pos < size
    requires RunEnabled(After(s, GetInput(off, size)), es) && RunUndisturbed(After(s, GetInput(off, size)), es)
    ensures Alive(s, pid)
    ensures var s2 := Run(After(s, GetInput(off, size)), es); var mem := ProcOf(s, pid).mem;
            LineDelivered(s2, After(s2, Enter), pid, off, size,
                          EditedBy(LeftOver(mem, off, s.input.pos), es, size - 1), mem)
  {
    var s1 := After(s, GetInput(off, size));
    RequestTakenUpIff(s, pid, off, size);
    var mem := ProcOf(s, pid).mem;
    var line := LeftOver(mem, off, s.input.pos);
    RunTyping(s1, es, pid, off, size, line, mem);
    EnterDelivers(Run(s1, es), pid, off, size, EditedBy(line, es, size - 1), mem);
  }

  /** A request made while no other is pending starts an empty line, and the line arrives. */
  lemma LineArrives(s: State, pid: int, off: int, size: int, es: seq<Event>)
    requires Inv(s) && Enabled(s, GetInput(off, size)) && Has(s, pid)
    requires off <= s.table[s.cur].memSize && !s.input.waiting
    requires RunEnabled(After(s, GetInput(off, size)), es) && RunUndisturbed(After(s, GetInput(off, size)), es)
    ensures Alive(s, pid)
    ensures var s2 := Run(After(s, GetInput(off, size)), es);
            LineDelivered(s2, After(s2, Enter), pid, off, size, EditedBy([], es, size - 1), ProcOf(s, pid).mem)
  {
    LeftoverLineArrives(s, pid, off, size, es);
    assert LeftOver(ProcOf(s, pid).mem, off, 0) == [];
  }
}
