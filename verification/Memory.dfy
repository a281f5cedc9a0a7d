/** The compacting block allocator of foki/memory.c: a value-level specification, its theorems,
    and the class whose methods change RAM and the block list in place. */
module Memory {
  import opened Base

  const MEM_LIST_SIZE: int := 512
  const KERNEL_BYTES: int := 0x300000

  datatype MemEntry = MemEntry(startAddr: int, size: int)

  function Lower(e: MemEntry, gap: int): MemEntry {
    e.(startAddr := e.startAddr - gap)
  }

  /** RAM, the block list, the number of list entries in use and the installed memory. */
  datatype Heap = Heap(ram: seq<byte>, list: seq<MemEntry>, index: int, installed: int)

  // ---------- byte copies ----------

  /** A byte-by-byte copy in increasing address order, each byte read after the earlier writes. */
  function CopyForward(ram: seq<byte>, dest: int, src: int, n: int): (r: seq<byte>)
    requires 0 <= n && 0 <= dest && 0 <= src && dest + n <= |ram| && src + n <= |ram|
    ensures |r| == |ram|
    decreases n
  {
    if n == 0 then ram else CopyForward(ram[dest := ram[src]], dest + 1, src + 1, n - 1)
  }

  /** The simultaneous copy: every byte is read before any is written. */
  function Move(ram: seq<byte>, dest: int, src: int, n: int): (r: seq<byte>)
    requires 0 <= n && 0 <= dest && 0 <= src && dest + n <= |ram| && src + n <= |ram|
  {
    Splice(ram, dest, ram[src..src + n])
  }

  lemma {:induction false} CopyForwardIsMove(ram: seq<byte>, dest: int, src: int, n: int)
    requires 0 <= n && 0 <= dest && 0 <= src && dest + n <= |ram| && src + n <= |ram|
    requires dest <= src || src + n <= dest
    ensures CopyForward(ram, dest, src, n) == Move(ram, dest, src, n)
    decreases n
  {
    if n == 0 {
      assert Move(ram, dest, src, n) == ram;
    } else {
      var ram' := ram[dest := ram[src]];
      CopyForwardIsMove(ram', dest + 1, src + 1, n - 1);
      forall k | 0 <= k < |ram|
        ensures Move(ram', dest + 1, src + 1, n - 1)[k] == Move(ram, dest, src, n)[k]
      {
      }
    }
  }

  lemma {:induction false} CopyForwardBelow(ram: seq<byte>, dest: int, src: int, n: int, j: int)
    requires 0 <= n && 0 <= src && 0 <= j < dest && dest + n <= |ram| && src + n <= |ram|
    ensures CopyForward(ram, dest, src, n)[j] == ram[j]
    decreases n
  {
    if n > 0 { CopyForwardBelow(ram[dest := ram[src]], dest + 1, src + 1, n - 1, j); }
  }

  /** Byte k of an upward-overlapping forward copy is the byte read at step k: an original one
      below the overlap, a copied one inside it. */
  lemma {:induction false} CopyForwardAt(ram: seq<byte>, dest: int, src: int, n: int, k: int)
    requires 0 <= src < dest && dest + n <= |ram|
    requires 0 <= k < n
    ensures CopyForward(ram, dest, src, n)[dest + k]
         == if k < dest - src then ram[src + k] else CopyForward(ram, dest, src, n)[src + k]
    decreases n
  {
    var ram' := ram[dest := ram[src]];
    CopyForwardBelow(ram', dest + 1, src + 1, n - 1, dest);
    if k > 0 { CopyForwardAt(ram', dest + 1, src + 1, n - 1, k - 1); }
  }

  /** The kernel's memcpy is a memmove on every RAM content exactly when the destination does not
      lie strictly inside the source region. */
  lemma ForwardCopyExact(size: int, dest: int, src: int, n: int)
    requires 0 <= n && 0 <= dest && 0 <= src && dest + n <= size && src + n <= size
    ensures (forall ram: seq<byte> | |ram| == size ::
               CopyForward(ram, dest, src, n) == Move(ram, dest, src, n))
       <==> (dest <= src || src + n <= dest)
  {
    if dest <= src || src + n <= dest {
      forall ram: seq<byte> | |ram| == size
        ensures CopyForward(ram, dest, src, n) == Move(ram, dest, src, n)
      {
        CopyForwardIsMove(ram, dest, src, n);
      }
    } else {
      ForwardCopyDiffers(size, dest, src, n);
    }
  }

  /** Where the regions overlap upwards, the first byte comes back one overlap distance later. */
  lemma CopyForwardEchoes(ram: seq<byte>, dest: int, src: int, n: int)
    requires 0 <= src < dest < src + n && dest + n <= |ram|
    ensures CopyForward(ram, dest, src, n)[dest + (dest - src)] == ram[src]
  {
    CopyForwardAt(ram, dest, src, n, 0);
    CopyForwardAt(ram, dest, src, n, dest - src);
  }

  lemma ForwardCopyDiffers(size: int, dest: int, src: int, n: int)
    requires 0 <= src < dest < src + n && dest + n <= size
    ensures exists ram: seq<byte> ::
              |ram| == size && CopyForward(ram, dest, src, n) != Move(ram, dest, src, n)
  {
    var ram: seq<byte> := seq(size, k => if k == src then 1 else 0);
    CopyForwardEchoes(ram, dest, src, n);
    var moved, at := Move(ram, dest, src, n), dest + (dest - src);
    assert moved[at] == ram[src..src + n][dest - src] == ram[dest] == 0;
    assert |ram| == size && CopyForward(ram, dest, src, n) != moved;
  }

  method Memcpy(ram: array<byte>, dest: int, src: int, n: int)
    requires 0 <= n && 0 <= dest && 0 <= src && dest + n <= ram.Length && src + n <= ram.Length
    modifies ram
    ensures ram[..] == CopyForward(old(ram[..]), dest, src, n)
  {
    var d, s, left := dest, src, n;
    while left != 0
      invariant 0 <= left <= n && d == dest + n - left && s == src + n - left
      invariant CopyForward(ram[..], d, s, left) == CopyForward(old(ram[..]), dest, src, n)
      decreases left
    {
      ghost var before := ram[..];
      ram[d] := ram[s];
      assert ram[..] == before[d := before[s]];
      d, s, left := d + 1, s + 1, left - 1;
    }
  }

  // ---------- the block list ----------

  /** The allocator's own claim about its list: entry 0 is the null entry, entry 1 the kernel, the
      blocks are adjacent and non-empty, and each passed the out-of-memory guard. */
  ghost predicate HeapInv(h: Heap) {
    && |h.ram| == ADDRESS_SPACE
    && |h.list| == MEM_LIST_SIZE
    && 2 <= h.index <= MEM_LIST_SIZE
    && h.installed <= MAX_INSTALLED
    && h.list[0] == MemEntry(0, 0)
    && h.list[1] == MemEntry(0, KERNEL_BYTES)
    && (forall k :: 1 <= k < h.index ==> Placed(h.list, k, h.installed))
  }

  /** Entry k starts where entry k-1 ends, is not empty, and passed the guard of allocMem. */
  ghost predicate Placed(list: seq<MemEntry>, k: int, installed: int)
    requires 1 <= k < |list|
  {
    && list[k].startAddr == list[k - 1].startAddr + list[k - 1].size
    && 0 < list[k].size
    && list[k - 1].startAddr + list[k].size <= installed
  }

  function HeapEnd(h: Heap): int
    requires 1 <= h.index <= |h.list|
  {
    h.list[h.index - 1].startAddr + h.list[h.index - 1].size
  }

  ghost predicate InRam(h: Heap, k: int)
    requires HeapInv(h) && 0 <= k < h.index
  {
    0 <= h.list[k].startAddr && 0 <= h.list[k].size
    && h.list[k].startAddr + h.list[k].size <= ADDRESS_SPACE
  }

  /** The bytes of block k. */
  function Block(h: Heap, k: int): seq<byte>
    requires 0 <= k < h.index <= |h.list|
    requires 0 <= h.list[k].startAddr && 0 <= h.list[k].size
    requires h.list[k].startAddr + h.list[k].size <= |h.ram|
  {
    h.ram[h.list[k].startAddr..h.list[k].startAddr + h.list[k].size]
  }

  /** Blocks are in address order and disjoint. */
  lemma {:induction false} BlocksOrdered(h: Heap, j: int, k: int)
    requires HeapInv(h) && 0 <= j < k < h.index
    ensures 0 <= h.list[j].startAddr && 0 <= h.list[j].size
    ensures h.list[j].startAddr + h.list[j].size <= h.list[k].startAddr
    decreases k
  {
    assert Placed(h.list, k, h.installed);
    if j < k - 1 {
      BlocksOrdered(h, j, k - 1);
      assert Placed(h.list, k - 1, h.installed);
    } else if j > 0 {
      BlocksOrdered(h, 0, j);
      assert Placed(h.list, j, h.installed);
    }
  }

  /** No block is larger than the installed memory, and the heap overshoots the installed memory
      by at most the size of the next-to-last block. */
  lemma HeapEndBound(h: Heap)
    requires HeapInv(h)
    ensures HeapEnd(h) <= h.installed + h.list[h.index - 2].size
    ensures forall k :: 0 <= k < h.index ==> 0 <= h.list[k].startAddr && 0 <= h.list[k].size <= h.installed
    ensures forall k :: 0 <= k < h.index ==> h.list[k].startAddr + h.list[k].size <= HeapEnd(h)
    ensures HeapEnd(h) <= 2 * h.installed
  {
    assert Placed(h.list, h.index - 1, h.installed);
    forall k | 0 <= k < h.index
      ensures 0 <= h.list[k].startAddr && 0 <= h.list[k].size <= h.installed
      ensures h.list[k].startAddr + h.list[k].size <= HeapEnd(h)
    {
      if k > 0 {
        assert Placed(h.list, k, h.installed);
        BlocksOrdered(h, 0, k);
        if k > 1 { BlocksOrdered(h, 0, k - 1); }
      } else {
        assert Placed(h.list, 1, h.installed);
      }
      if k < h.index - 1 { BlocksOrdered(h, k, h.index - 1); }
    }
  }

  // ---------- allocation ----------

  /** allocMem: None is the kernel panic. The guard looks at the start of the last block, and its
      sum has 32 bits; the end of the heap is below 2 GiB and needs no more. */
  function Alloc(h: Heap, size: int): Option<Heap>
    requires 1 <= h.index <= |h.list| == MEM_LIST_SIZE
  {
    if Sum32(h.list[h.index - 1].startAddr, size) > h.installed then None
    else if h.index >= MEM_LIST_SIZE then None
    else Some(h.(list := h.list[h.index := MemEntry(HeapEnd(h), size)], index := h.index + 1))
  }

  /** initMem: the null entry, then the kernel's own block. */
  function InitHeap(h: Heap): Option<Heap>
    requires |h.list| == MEM_LIST_SIZE
  {
    Alloc(h.(list := h.list[0 := MemEntry(0, 0)], index := 1), KERNEL_BYTES)
  }

  lemma InitHeapInv(h: Heap)
    requires |h.list| == MEM_LIST_SIZE && |h.ram| == ADDRESS_SPACE && h.installed <= MAX_INSTALLED
    ensures InitHeap(h).Some? <==> KERNEL_BYTES <= h.installed
    ensures InitHeap(h).Some? ==> HeapInv(InitHeap(h).value) && InitHeap(h).value.index == 2
  {
    if InitHeap(h).Some? {
      assert Placed(InitHeap(h).value.list, 1, h.installed);
    }
  }

  /** The guard's sum does not wrap. */
  predicate NoWrap(h: Heap, size: int)
    requires 1 <= h.index <= |h.list|
  {
    h.list[h.index - 1].startAddr + size < ADDRESS_SPACE
  }

  lemma AllocKeepsInv(h: Heap, size: int)
    requires HeapInv(h) && 0 < size && NoWrap(h, size) && Alloc(h, size).Some?
    ensures HeapInv(Alloc(h, size).value)
  {
    var h' := Alloc(h, size).value;
    forall k | 1 <= k < h'.index
      ensures Placed(h'.list, k, h.installed)
    {
      if k < h.index { assert Placed(h.list, k, h.installed); }
    }
  }

  /** The guard was meant to keep the heap within installed memory. A successful allocation does so
      exactly when the block also fits behind the end of the last one. */
  lemma AllocWithinMemoryIff(h: Heap, size: int)
    requires HeapInv(h) && 0 < size < ADDRESS_SPACE && h.index < 512
    ensures Alloc(h, size).Some? && HeapEnd(Alloc(h, size).value) <= h.installed
       <==> HeapEnd(h) + size <= h.installed
  {
    HeapEndBound(h);
  }

  /** An allocation that passes the guard and ends beyond the installed memory of 4 MiB: the first
      process, from a file of 2039 blocks. */
  lemma AllocOvershoots(h: Heap)
    requires HeapInv(h) && h.index == 2 && h.installed == 0x400000
    ensures var size := 2039 * 2048 + 16385;
            Alloc(h, size).Some? && h.installed < HeapEnd(Alloc(h, size).value) == KERNEL_BYTES + size
  {
  }

  /** An allocation that passes the guard keeps the allocator's invariant, for any 32-bit size,
      exactly when the guard's sum did not wrap. */
  lemma AllocKeepsInvIff(h: Heap, size: int)
    requires HeapInv(h) && 0 < size < ADDRESS_SPACE && Alloc(h, size).Some?
    ensures HeapInv(Alloc(h, size).value) <==> NoWrap(h, size)
  {
    if NoWrap(h, size) { AllocKeepsInv(h, size); }
    else { assert !Placed(Alloc(h, size).value.list, h.index, h.installed); }
  }

  /** A wrapped sum passes the guard: behind any first process, a block of 4 GiB less the kernel's
      size would be granted. */
  lemma GuardWraps(h: Heap)
    requires HeapInv(h) && h.index == 3
    ensures Alloc(h, ADDRESS_SPACE - KERNEL_BYTES).Some? && !NoWrap(h, ADDRESS_SPACE - KERNEL_BYTES)
  {
    HeapEndBound(h);
    assert Placed(h.list, 2, h.installed) && Placed(h.list, 1, h.installed);
  }

  // ---------- release ----------

  /** The first of the list's first n entries that starts at addr, or n. */
  function FindStart(list: seq<MemEntry>, from: int, n: int, addr: int): (i: int)
    requires 0 <= from <= n <= |list|
    ensures from <= i <= n
    ensures i < n ==> list[i].startAddr == addr
    ensures forall k :: from <= k < i ==> list[k].startAddr != addr
    decreases n - from
  {
    if from == n || list[from].startAddr == addr then from else FindStart(list, from + 1, n, addr)
  }

  /** The list after entry i is dropped and every later block slides down over it. */
  function ListWithout(h: Heap, i: int): seq<MemEntry>
    requires 0 <= i < h.index <= |h.list|
  {
    Compact(h.list, i, h.index, e => Lower(e, h.list[i].size))
  }

  /** How many bytes freeMem moves: up to the end of the stale last entry. */
  function TailBytes(h: Heap, i: int): int
    requires 0 <= i < h.index <= |h.list|
  {
    var stale := ListWithout(h, i)[h.index - 1];
    stale.startAddr + stale.size - h.list[i].startAddr
  }

  /** freeMem. */
  function Free(h: Heap, addr: int): Heap
    requires HeapInv(h)
  {
    var i := FindStart(h.list, 0, h.index, addr);
    if addr <= 0 || i == h.index then h
    else
      var size := h.list[i].size;
      TailBytesInRam(h, i);
      h.(ram := CopyForward(h.ram, addr, addr + size, TailBytes(h, i)),
         list := ListWithout(h, i),
         index := h.index - 1)
  }

  /** Some block starts at the address. */
  ghost predicate Starts(h: Heap, addr: int)
    requires h.index <= |h.list|
  {
    exists k :: 0 <= k < h.index && h.list[k].startAddr == addr
  }

  /** Where no block starts, and at address zero, there is nothing to free. */
  lemma FreeNothing(h: Heap, addr: int)
    requires HeapInv(h) && (addr <= 0 || !Starts(h, addr))
    ensures Free(h, addr) == h
  {
  }

  lemma FreeOf(h: Heap, i: int)
    requires HeapInv(h) && 0 <= i < h.index && 0 < h.list[i].startAddr
    requires FindStart(h.list, 0, h.index, h.list[i].startAddr) == i
    ensures var addr, size, n := h.list[i].startAddr, h.list[i].size, TailBytes(h, i);
            && 0 <= n && 0 <= size && addr + size + n <= |h.ram|
            && Free(h, addr)
            == Heap(CopyForward(h.ram, addr, addr + size, n), ListWithout(h, i), h.index - 1, h.installed)
  {
    TailBytesInRam(h, i);
  }

  /** freeMem moves everything behind the block, or, for the last block, as many bytes as it had. */
  lemma TailBytesInRam(h: Heap, i: int)
    requires HeapInv(h) && 0 <= i < h.index
    ensures TailBytes(h, i)
         == if i == h.index - 1 then h.list[i].size
            else HeapEnd(h) - h.list[i].startAddr - h.list[i].size
    ensures 0 <= TailBytes(h, i) && 0 <= h.list[i].startAddr && 0 <= h.list[i].size
    ensures h.list[i].startAddr + h.list[i].size + TailBytes(h, i) <= ADDRESS_SPACE
  {
    HeapEndBound(h);
  }

  /** Process blocks are found by their start address, without confusion. */
  lemma FindBlock(h: Heap, i: int)
    requires HeapInv(h) && 2 <= i < h.index
    ensures FindStart(h.list, 0, h.index, h.list[i].startAddr) == i
    ensures KERNEL_BYTES <= h.list[i].startAddr
  {
    BlocksOrdered(h, 1, i);
    forall k | 0 <= k < i
      ensures h.list[k].startAddr < h.list[i].startAddr
    {
      BlocksOrdered(h, k, i);
      if k > 0 { assert Placed(h.list, k, h.installed); }
    }
  }

  lemma FreeKeepsInv(h: Heap, i: int)
    requires HeapInv(h) && 2 <= i < h.index
    ensures var h' := Free(h, h.list[i].startAddr);
            && HeapInv(h')
            && h'.index == h.index - 1
            && h'.list == ListWithout(h, i)
            && HeapEnd(h') == HeapEnd(h) - h.list[i].size
  {
    FindBlock(h, i);
    var h' := Free(h, h.list[i].startAddr);
    assert Placed(h.list, i, h.installed);
    assert Placed(h.list, i - 1, h.installed);
    forall k | 1 <= k < h'.index
      ensures Placed(h'.list, k, h.installed)
    {
      assert Placed(h.list, k, h.installed);
      assert Placed(h.list, k + 1, h.installed);
    }
  }

  /** What freeMem does to RAM, address by address: the tail slides down, everything below the
      block stays, and freeing the last block touches dead bytes only. */
  lemma FreeRam(h: Heap, i: int)
    requires HeapInv(h) && 2 <= i < h.index
    ensures var h' := Free(h, h.list[i].startAddr); var start, size := h.list[i].startAddr, h.list[i].size;
            && |h'.ram| == ADDRESS_SPACE
            && 0 <= start && 0 < size && start + size <= HeapEnd(h) <= ADDRESS_SPACE
            && (forall a :: 0 <= a < start ==> h'.ram[a] == h.ram[a])
            && (forall a :: start <= a < HeapEnd(h) - size ==> h'.ram[a] == h.ram[a + size])
            && (forall a :: HeapEnd(h) <= a < ADDRESS_SPACE ==> h'.ram[a] == h.ram[a])
  {
    FindBlock(h, i);
    TailBytesInRam(h, i);
    HeapEndBound(h);
    assert Placed(h.list, i, h.installed);
    var start, size, n := h.list[i].startAddr, h.list[i].size, TailBytes(h, i);
    CopyForwardIsMove(h.ram, start, start + size, n);
  }

  lemma FreeKeepsEntry(h: Heap, i: int, k: int)
    requires HeapInv(h) && 2 <= i < h.index && 1 <= k < h.index && k != i
    ensures var h' := Free(h, h.list[i].startAddr); var k' := if k < i then k else k - 1;
            && HeapInv(h') && 0 <= k' < h'.index
            && h'.list[k'] == (if k < i then h.list[k] else Lower(h.list[k], h.list[i].size))
            && InRam(h', k') && InRam(h, k)
  {
    FreeKeepsInv(h, i);
    HeapEndBound(h);
    HeapEndBound(Free(h, h.list[i].startAddr));
  }

  /** Relocation is invisible inside every surviving block. */
  lemma FreeKeepsBlocks(h: Heap, i: int, k: int)
    requires HeapInv(h) && 2 <= i < h.index && 1 <= k < h.index && k != i
    ensures var h' := Free(h, h.list[i].startAddr); var k' := if k < i then k else k - 1;
            && HeapInv(h') && 0 <= k' < h'.index && InRam(h', k') && InRam(h, k)
            && h'.list[k'] == (if k < i then h.list[k] else Lower(h.list[k], h.list[i].size))
            && Block(h', k') == Block(h, k)
  {
    FreeKeepsEntry(h, i, k);
    FreeRam(h, i);
    BlockSlid(h, Free(h, h.list[i].startAddr), i, k, if k < i then k else k - 1);
  }

  lemma BlockSlid(h: Heap, h': Heap, i: int, k: int, k': int)
    requires HeapInv(h) && HeapInv(h') && 2 <= i < h.index && 1 <= k < h.index && k != i
    requires 0 <= k' < h'.index && InRam(h', k') && InRam(h, k)
    requires h'.list[k'] == if k < i then h.list[k] else Lower(h.list[k], h.list[i].size)
    requires var start, size := h.list[i].startAddr, h.list[i].size;
             && 0 <= start && 0 < size && start + size <= HeapEnd(h) <= ADDRESS_SPACE
             && (forall a :: 0 <= a < start ==> h'.ram[a] == h.ram[a])
             && (forall a :: start <= a < HeapEnd(h) - size ==> h'.ram[a] == h.ram[a + size])
    ensures Block(h', k') == Block(h, k)
  {
    BlockBeside(h, i, k);
    SlidBlock(h.ram, h'.ram, HeapEnd(h), h.list[i], h.list[k], h'.list[k'], k < i);
  }

  lemma BlockBeside(h: Heap, i: int, k: int)
    requires HeapInv(h) && 2 <= i < h.index && 1 <= k < h.index && k != i
    ensures 0 <= h.list[k].startAddr && 0 <= h.list[k].size
    ensures if k < i then h.list[k].startAddr + h.list[k].size <= h.list[i].startAddr
            else h.list[i].startAddr + h.list[i].size <= h.list[k].startAddr
    ensures h.list[k].startAddr + h.list[k].size <= HeapEnd(h)
  {
    if k < i { BlocksOrdered(h, k, i); } else { BlocksOrdered(h, i, k); }
    HeapEndBound(h);
  }

  /** RAM slid down over a gap: a block below the gap and a block above it keep their bytes. */
  lemma SlidBlock(r: seq<byte>, r': seq<byte>, end: int, gap: MemEntry, e: MemEntry, e': MemEntry, below: bool)
    requires 0 <= gap.startAddr && 0 <= gap.size && 0 <= e.startAddr && 0 <= e.size && end <= |r| == |r'|
    requires if below then e.startAddr + e.size <= gap.startAddr <= end
             else gap.startAddr + gap.size <= e.startAddr && e.startAddr + e.size <= end
    requires e' == if below then e else Lower(e, gap.size)
    requires forall a :: 0 <= a < gap.startAddr ==> r'[a] == r[a]
    requires forall a :: gap.startAddr <= a < end - gap.size ==> r'[a] == r[a + gap.size]
    ensures 0 <= e'.startAddr && 0 <= e'.size && e'.startAddr + e'.size <= |r'|
    ensures r'[e'.startAddr..e'.startAddr + e'.size] == r[e.startAddr..e.startAddr + e.size]
  {
    SlicesEqual(r, r', e'.startAddr, e.size, if below then 0 else gap.size);
  }

  lemma SlicesEqual(r: seq<byte>, r': seq<byte>, a: int, n: int, d: int)
    requires 0 <= n && 0 <= a && a + n <= |r'| && 0 <= a + d && a + d + n <= |r|
    requires forall o :: a <= o < a + n ==> r'[o] == r[o + d]
    ensures r'[a..a + n] == r[a + d..a + d + n]
  {
  }

  // ---------- the globals of memory.c and the functions that change them ----------

  class MemoryManager {
    const ram: array<byte>
    const list: array<MemEntry>
    const installed: int
    var index: int

    ghost function Abs(): Heap
      reads this, ram, list
    {
      Heap(ram[..], list[..], index, installed)
    }

    ghost predicate Valid()
      reads this, ram, list
    {
      HeapInv(Abs()) && ram as object != list as object
    }

    /** initMem on freshly booted memory. None of the RAM's content matters. */
    constructor (ram: array<byte>, installed: int)
      requires ram.Length == ADDRESS_SPACE && KERNEL_BYTES <= installed <= MAX_INSTALLED
      ensures Valid() && this.ram == ram && this.installed == installed && fresh(list)
      ensures index == 2 && list[0] == MemEntry(0, 0) && list[1] == MemEntry(0, 0x30_0000)
      ensures ram[..] == old(ram[..])
    {
      this.ram := ram;
      this.installed := installed;
      list := new MemEntry[MEM_LIST_SIZE](_ => MemEntry(0, 0));
      index := 1;
      new;
      list[0] := MemEntry(0, 0);
      ghost var h := Abs();
      var addr := AllocMem(KERNEL_BYTES);
      InitHeapInv(h);
      assert h == h.(list := h.list[0 := MemEntry(0, 0)], index := 1);
    }

    /** None is the panic of herr, which never returns. */
    method AllocMem(size: int) returns (addr: Option<int>)
      requires 1 <= index <= list.Length == MEM_LIST_SIZE
      modifies this`index, list
      ensures addr.Some? <==> Alloc(old(Abs()), size).Some?
      ensures addr.Some? ==> Abs() == Alloc(old(Abs()), size).value && addr.value == HeapEnd(old(Abs()))
      ensures addr.None? ==> Abs() == old(Abs())
    {
      if Sum32(list[index - 1].startAddr, size) > installed { return None; }
      if index >= MEM_LIST_SIZE { return None; }
      list[index] := MemEntry(list[index - 1].startAddr + list[index - 1].size, size);
      index := index + 1;
      return Some(list[index - 1].startAddr);
    }

    /** The inner loop of freeMem. */
    method CloseGap(i: int, size: int)
      requires 0 <= i < index <= list.Length && size == list[i].size
      modifies list
      ensures list[..] == Compact(old(list[..]), i, index, e => Lower(e, size))
    {
      ghost var was := list[..];
      var j := i;
      while j < index - 1
        invariant i <= j <= index - 1
        invariant forall k :: 0 <= k < i || j < k < list.Length ==> list[k] == was[k]
        invariant forall k :: i <= k < j ==> list[k] == Lower(was[k + 1], size)
        invariant list[j] == if i < j then Lower(was[j], size) else was[j]
      {
        list[j + 1] := list[j + 1].(startAddr := list[j + 1].startAddr - size);
        list[j] := list[j + 1];
        j := j + 1;
      }
      CompactIs(was, i, index, e => Lower(e, size), list[..]);
    }

    /** What freeMem does with the entry it finds. */
    method Release(i: int)
      requires Valid() && 0 <= i < index && 0 < list[i].startAddr
      modifies this`index, list, ram
      ensures index == old(index) - 1 && list[..] == ListWithout(old(Abs()), i)
      ensures var h := old(Abs()); var n := TailBytes(h, i);
              && 0 <= n && 0 <= h.list[i].size && h.list[i].startAddr + h.list[i].size + n <= |h.ram|
              && ram[..] == CopyForward(h.ram, h.list[i].startAddr, h.list[i].startAddr + h.list[i].size, n)
    {
      ghost var h := Abs();
      TailBytesInRam(h, i);
      var memStart, size := list[i].startAddr, list[i].size;
      CloseGap(i, size);
      index := index - 1;
      var n := (list[index].startAddr + list[index].size) - memStart;
      assert list[index] == ListWithout(h, i)[index];
      Memcpy(ram, memStart, memStart + size, n);
    }

    method FreeMem(memStart: int) returns (r: int)
      requires Valid()
      modifies this`index, list, ram
      ensures Abs() == Free(old(Abs()), memStart)
      ensures r == if memStart > 0 && Starts(old(Abs()), memStart) then memStart else -1
      ensures r == -1 ==> Abs() == old(Abs())
    {
      if memStart <= 0 { return -1; }
      ghost var h := Abs();
      var i := 0;
      while i < index
        invariant 0 <= i <= index && Abs() == h
        invariant forall k :: 0 <= k < i ==> h.list[k].startAddr != memStart
      {
        if list[i].startAddr == memStart {
          FreeOf(h, i);
          Release(i);
          assert Abs() == Free(h, memStart);
          return memStart;
        }
        i := i + 1;
      }
      FreeNothing(h, memStart);
      return -1;
    }
  }
}
