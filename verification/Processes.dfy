/** The process table of foki/process.c and its round-robin scheduler. */
module Processes {
  import opened Base

  const PROCESS_SLOTS: int := 256
  const QUEUE_SLOTS: int := 16
  const STACK_BYTES: int := 4096 * 4 + 1
  const TEXT_BYTES: int := 50

  datatype Regs = Regs(eax: int, ebx: int, ecx: int, edx: int, esi: int, edi: int,
                       esp: int, ebp: int, flags: int)

  /** A running CPU: the general registers and the program counter. */
  datatype Cpu = Cpu(regs: Regs, pc: int)

  datatype Msg = Msg(fromPid: int, text: seq<byte>)

  datatype Process = Process(waiting: bool, memStart: int, memSize: int, pcLoc: int, regs: Regs,
                             pid: int, queueSize: int, queue: seq<Msg>)

  function Lowered(p: Process, gap: int): Process {
    p.(memStart := p.memStart - gap)
  }

  /** The process table after slot i is dropped. */
  function TableWithout(table: seq<Process>, i: int, count: int): seq<Process>
    requires 0 <= i < count <= |table|
  {
    Compact(table, i, count, p => Lowered(p, table[i].memSize))
  }

  /** The messages waiting in a process's queue, oldest first. */
  function Inbox(p: Process): seq<Msg> {
    if 0 <= p.queueSize <= |p.queue| then p.queue[..p.queueSize] else []
  }

  // ---------- lookup ----------

  /** getProcessIndexFromPID, scanning from a slot onwards; -1 when there is none. */
  function IndexFrom(table: seq<Process>, i: int, count: int, pid: int): (r: int)
    requires 1 <= i && count <= |table|
    ensures r == -1 || (i <= r < count && table[r].pid == pid)
    ensures r == -1 ==> forall k :: i <= k < count ==> table[k].pid != pid
    ensures r != -1 ==> forall k :: i <= k < r ==> table[k].pid != pid
    decreases count - i
  {
    if i >= count then -1 else if table[i].pid == pid then i else IndexFrom(table, i + 1, count, pid)
  }

  function IndexOf(table: seq<Process>, count: int, pid: int): (r: int)
    requires count <= |table|
    ensures r == -1 || (1 <= r < count && table[r].pid == pid)
    ensures r == -1 <==> forall k :: 1 <= k < count ==> table[k].pid != pid
  {
    IndexFrom(table, 1, count, pid)
  }

  // ---------- scheduling ----------

  /** One turn of the scan in getNextProcessDry: slot 0 is skipped. */
  function Advance(at: int, count: int): int {
    var up := if at + 1 >= count then 1 else at + 1;
    if up == 0 then 1 else up
  }

  predicate Ready(table: seq<Process>, count: int, r: int)
    requires count <= |table|
  {
    1 <= r < count && !table[r].waiting
  }

  ghost predicate SomeReady(table: seq<Process>, count: int)
    requires count <= |table|
  {
    exists r :: Ready(table, count, r)
  }

  /** How many turns of the scan lead from slot at to slot r. */
  function Gap(at: int, r: int, count: int): int {
    if at < r then r - at else if at >= count then r else count - 1 - at + r
  }

  /** getNextProcessDry: the ready slot that the scan meets first. */
  ghost function Next(table: seq<Process>, count: int, at: int): (n: int)
    requires count <= |table| && 0 <= at && SomeReady(table, count)
    ensures Ready(table, count, n)
    ensures forall r :: Ready(table, count, r) ==> Gap(at, n, count) <= Gap(at, r, count)
    decreases var goal :| Ready(table, count, goal); Gap(at, goal, count)
  {
    var up := Advance(at, count);
    if !table[up].waiting then up else Next(table, count, up)
  }

  /** The slot the scan looks at in its k-th turn: never slot 0, always one of the table. */
  function Probe(at: int, count: int, k: nat): (r: int)
    ensures 0 <= at && 2 <= count && 0 < k ==> 1 <= r < count
    decreases k
  {
    if k == 0 then at else Probe(Advance(at, count), count, k - 1)
  }

  lemma {:induction false} ProbeReaches(at: int, count: int, r: int)
    requires 0 <= at && 1 <= r < count
    ensures 0 < Gap(at, r, count) && Probe(at, count, Gap(at, r, count)) == r
    decreases Gap(at, r, count)
  {
    var up := Advance(at, count);
    if up != r {
      assert Gap(up, r, count) == Gap(at, r, count) - 1;
      ProbeReaches(up, count, r);
    } else {
      assert Gap(at, r, count) == 1;
      assert Probe(up, count, 0) == r;
    }
  }

  /** The do-while scan meets a process that is not waiting, and so ends, exactly when some slot
      from 1 on is ready. */
  lemma ScanEndsIff(table: seq<Process>, count: int, at: int)
    requires 2 <= count <= |table| && 0 <= at
    ensures (exists k: nat :: 0 < k && !table[Probe(at, count, k)].waiting) <==> SomeReady(table, count)
  {
    if k: nat :| 0 < k && !table[Probe(at, count, k)].waiting {
      assert Ready(table, count, Probe(at, count, k));
    }
    if r :| Ready(table, count, r) {
      ProbeReaches(at, count, r);
      assert 0 < Gap(at, r, count) && !table[Probe(at, count, Gap(at, r, count))].waiting;
    }
  }

  /** k consecutive decisions on an unchanging table. */
  ghost function Picks(table: seq<Process>, count: int, at: int, k: nat): seq<int>
    requires count <= |table| && 0 <= at && SomeReady(table, count)
    decreases k
  {
    if k == 0 then [] else
      var n := Next(table, count, at);
      [n] + Picks(table, count, n, k - 1)
  }

  /** The ready slots more than g turns ahead of slot at. */
  ghost function Ahead(table: seq<Process>, count: int, at: int, g: int): set<int>
    requires count <= |table|
  {
    set r | 1 <= r < count && !table[r].waiting && Gap(at, r, count) > g
  }

  /** Distances from a slot are distances from an earlier starting point, shifted cyclically. */
  lemma GapShift(start: int, at: int, r: int, count: int)
    requires 0 <= start && 1 <= at < count && 1 <= r < count
    ensures 0 < Gap(start, r, count) < count
    ensures Gap(start, r, count) == Gap(start, at, count) ==> r == at
    ensures Gap(at, r, count) == Gap(start, r, count) - Gap(start, at, count)
         + if Gap(start, r, count) > Gap(start, at, count) then 0 else count - 1
  {
  }

  /** The next pick is the nearest slot ahead, so exactly that slot leaves the set ahead. */
  lemma NextTakesNearest(table: seq<Process>, count: int, start: int, at: int, g: int)
    requires 2 <= count <= |table| && 0 <= start && SomeReady(table, count)
    requires (at == start && g == 0) || (1 <= at < count && g == Gap(start, at, count))
    requires Ahead(table, count, start, g) != {}
    ensures var n := Next(table, count, at);
            n in Ahead(table, count, start, g)
            && Ahead(table, count, start, Gap(start, n, count)) == Ahead(table, count, start, g) - {n}
  {
    var n := Next(table, count, at);
    var some :| some in Ahead(table, count, start, g);
    assert Ready(table, count, some);
    GapShift(start, n, some, count);
    if at != start || g != 0 {
      GapShift(start, at, n, count);
      GapShift(start, at, some, count);
    }
    forall r | 1 <= r < count && !table[r].waiting
      ensures Gap(start, r, count) > Gap(start, n, count) <==> Gap(start, r, count) > g && r != n
    {
      assert Ready(table, count, r);
      GapShift(start, n, r, count);
      if at != start || g != 0 { GapShift(start, at, r, count); }
    }
  }

  lemma {:induction false} PicksAhead(table: seq<Process>, count: int, start: int, at: int, g: int)
    requires 2 <= count <= |table| && 0 <= start && SomeReady(table, count)
    requires (at == start && g == 0) || (1 <= at < count && g == Gap(start, at, count))
    ensures multiset(Picks(table, count, at, |Ahead(table, count, start, g)|))
         == multiset(Ahead(table, count, start, g))
    decreases |Ahead(table, count, start, g)|
  {
    var left := Ahead(table, count, start, g);
    if left == {} {
    } else {
      var n := Next(table, count, at);
      NextTakesNearest(table, count, start, at, g);
      var rest := Ahead(table, count, start, Gap(start, n, count));
      assert |left| == |rest| + 1;
      PicksAhead(table, count, start, n, Gap(start, n, count));
      PickFirst(n, Picks(table, count, n, |rest|), left, rest);
    }
  }

  lemma PickFirst(n: int, picks: seq<int>, left: set<int>, rest: set<int>)
    requires n in left && rest == left - {n} && multiset(picks) == multiset(rest)
    ensures multiset([n] + picks) == multiset(left)
  {
    assert left == rest + {n};
  }

  /** Round robin: with m ready processes, any m consecutive decisions pick each exactly once. */
  lemma RoundRobin(table: seq<Process>, count: int, at: int)
    requires 2 <= count <= |table| && 0 <= at && SomeReady(table, count)
    ensures var ready := set r | 1 <= r < count && !table[r].waiting;
            multiset(Picks(table, count, at, |ready|)) == multiset(ready)
  {
    PicksAhead(table, count, at, at, 0);
    assert Ahead(table, count, at, 0) == set r | 1 <= r < count && !table[r].waiting;
  }
}
