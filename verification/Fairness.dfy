/** No starvation: a process that stays alive and ready is scheduled after a bounded number of
    scheduling decisions, in any run, although every exit shifts the table under the scheduler and
    makes it skip the process that slides into the dead slot. */
module Fairness {
  import opened Processes
  import opened Machine
  import opened Invariant
  import opened Histories

  /** Cyclic distance from the scheduler's position to a slot, in a table of full size, so that it
      does not depend on how many processes there are. */
  function Distance(cur: int, i: int): int {
    if cur < i then i - cur else i - cur + PROCESS_SLOTS
  }

  /** Slots first, distance second. */
  function Rank(cur: int, i: int): int {
    (PROCESS_SLOTS + 1) * i + Distance(cur, i)
  }

  ghost function RankOf(s: State, pid: int): int
    requires s.count <= |s.table|
  {
    Rank(s.cur, IndexOf(s.table, s.count, pid))
  }

  ghost function Decisions(s: State, es: seq<Event>): nat
    requires Inv(s) && RunEnabled(s, es)
    decreases |es|
  {
    if es == [] then 0 else
      (if Suspends(s, es[0]) then 1 else 0) + Decisions(After(s, es[0]), es[1..])
  }

  ghost predicate IsReady(s: State, pid: int)
    requires s.count <= |s.table|
  {
    Alive(s, pid) && !s.table[IndexOf(s.table, s.count, pid)].waiting
  }

  /** The process is alive and ready all through the run. */
  ghost predicate StaysReady(s: State, es: seq<Event>, pid: int)
    requires Inv(s) && RunEnabled(s, es)
    decreases |es|
  {
    IsReady(s, pid) && (es != [] ==> StaysReady(After(s, es[0]), es[1..], pid))
  }

  /** Some decision of the run gives the process the CPU. */
  ghost predicate Picked(s: State, es: seq<Event>, pid: int)
    requires Inv(s) && RunEnabled(s, es)
    decreases |es|
  {
    es != [] && ((Suspends(s, es[0]) && Has(After(s, es[0]), pid)) || Picked(After(s, es[0]), es[1..], pid))
  }

  /** A decision that picks some other slot brings the scheduler closer. */
  lemma DecisionNears(table: seq<Process>, count: int, cur: int, i: int)
    requires 0 <= cur < PROCESS_SLOTS && count <= |table| && count <= PROCESS_SLOTS && Ready(table, count, i)
    requires SomeReady(table, count) && Next(table, count, cur) != i
    ensures Distance(Next(table, count, cur), i) < Distance(cur, i)
  {
  }

  lemma TimerNears(s: State, pid: int)
    requires Shape(s) && PidsOk(s.table, s.count, Fresh(s)) && SomeReady(s.table, s.count)
    requires IsReady(s, pid) && !Has(Timer(s), pid)
    ensures IsReady(Timer(s), pid) && RankOf(Timer(s), pid) < RankOf(s, pid)
  {
    var i := IndexOf(s.table, s.count, pid);
    SamePids(s.table, Timer(s).table, s.count, Fresh(s));
    IndexOfSlot(Timer(s).table, s.count, i, Fresh(s));
    DecisionNears(s.table, s.count, s.cur, i);
  }

  lemma ExitNears(s: State, pid: int)
    requires Inv(s) && User(s) && IsReady(s, pid) && IsReady(ExitCall(s), pid)
    ensures RankOf(ExitCall(s), pid) <= RankOf(s, pid)
  {
    var i := IndexOf(s.table, s.count, pid);
    if i != s.cur { ExitMoves(s, i); } else { GoneAfterExit(s); }
  }

  /** A survivor keeps its slot or slides down by one, and the scheduler stays where it was. */
  lemma ExitMoves(s: State, i: int)
    requires Inv(s) && User(s) && 1 <= i < s.count && i != s.cur
    ensures var s' := ExitCall(s);
            && s'.count <= |s'.table| && s'.cur == s.cur
            && IndexOf(s'.table, s'.count, s.table[i].pid) == if i < s.cur then i else i - 1
  {
    KilledKeepsTables(s, s.cur);
    var s' := ExitCall(s);
    IndexOfSlot(s'.table, s'.count, if i < s.cur then i else i - 1, Fresh(s'));
  }

  lemma GoneAfterExit(s: State)
    requires Inv(s) && User(s)
    ensures !Alive(ExitCall(s), s.table[s.cur].pid)
  {
    KilledKeepsTables(s, s.cur);
    var s' := ExitCall(s);
    forall k | 1 <= k < s'.count ensures s'.table[k].pid != s.table[s.cur].pid {
      if k < s.cur { assert Older(s.table[k], s.table[s.cur]); }
      else { assert Older(s.table[s.cur], s.table[k + 1]); }
    }
  }

  /** Other events leave the slot and the scheduler where they are. */
  lemma OthersKeepRank(s: State, e: Event, pid: int)
    requires Inv(s) && Enabled(s, e) && Alive(s, pid) && !Suspends(s, e) && !e.Exit?
    ensures RankOf(After(s, e), pid) == RankOf(s, pid)
  {
    SlotStays(s, e, IndexOf(s.table, s.count, pid));
  }

  /** Each step keeps the rank from rising, and each decision lowers it. */
  lemma StepNears(s: State, e: Event, pid: int)
    requires Inv(s) && Enabled(s, e) && IsReady(s, pid) && IsReady(After(s, e), pid)
    requires Suspends(s, e) ==> !Has(After(s, e), pid)
    ensures RankOf(After(s, e), pid) + (if Suspends(s, e) then 1 else 0) <= RankOf(s, pid)
  {
    if e.Tick? { TimerNears(s, pid); }
    else if Suspends(s, e) { RequestNears(s, e.off, e.size, pid); }
    else if e.Exit? { ExitNears(s, pid); }
    else { OthersKeepRank(s, e, pid); }
  }

  lemma RequestNears(s: State, off: int, size: int, pid: int)
    requires Inv(s) && Enabled(s, GetInput(off, size)) && off <= s.table[s.cur].memSize
    requires IsReady(s, pid) && IsReady(After(s, GetInput(off, size)), pid)
    requires !Has(After(s, GetInput(off, size)), pid)
    ensures RankOf(After(s, GetInput(off, size)), pid) < RankOf(s, pid)
  {
    assert After(s, GetInput(off, size)) == Timer(Blocked(s, off, size));
    BlockedKeepsRank(s, off, size, pid);
    TimerNears(Blocked(s, off, size), pid);
  }

  /** Beginning to wait moves nobody; a process that is ready after the switch was not the one. */
  lemma BlockedKeepsRank(s: State, off: int, size: int, pid: int)
    requires Shape(s) && PidsOk(s.table, s.count, Fresh(s)) && SomeReady(Blocked(s, off, size).table, s.count)
    requires IsReady(s, pid) && IsReady(Timer(Blocked(s, off, size)), pid)
    ensures var b := Blocked(s, off, size);
            PidsOk(b.table, b.count, Fresh(b)) && IsReady(b, pid) && RankOf(b, pid) == RankOf(s, pid)
  {
    var b := Blocked(s, off, size);
    var i := IndexOf(s.table, s.count, pid);
    SamePids(s.table, b.table, s.count, Fresh(s));
    IndexOfSlot(b.table, s.count, i, Fresh(s));
    SamePids(b.table, Timer(b).table, s.count, Fresh(s));
    IndexOfSlot(Timer(b).table, s.count, i, Fresh(s));
    assert Timer(b).table[i].waiting == b.table[i].waiting;
  }

  /** In every run, whatever is spawned, exits, blocks and wakes: a process that stays alive and ready
      is picked before as many decisions have been made as its rank says, hence before 65792. */
  lemma {:induction false} NoStarvation(s: State, es: seq<Event>, pid: int)
    requires Inv(s) && RunEnabled(s, es) && StaysReady(s, es, pid)
    ensures RankOf(s, pid) <= 65791
    ensures RankOf(s, pid) < Decisions(s, es) ==> Picked(s, es, pid)
    decreases |es|
  {
    if es != [] && !Picked(s, es, pid) {
      var s1 := After(s, es[0]);
      NoStarvation(s1, es[1..], pid);
      assert IsReady(s1, pid);
      StepNears(s, es[0], pid);
    }
  }
}
