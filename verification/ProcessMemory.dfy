/** A process's memory: heap blocks, page table translations and the list of allocations kept in step. */
module ProcessMemory {
  import opened Arithmetic
  import opened Machine
  import opened Options
  import opened Powers
  import opened PageTableObjects
  import opened PageTables
  import opened BuddyAllocators
  import Buddy
  import PageEntries

  const USER_INPUTS_START: nat := 0x1000
  const USER_STACK_START: nat := 0x3000
  const USER_HEAP_START: nat := 0x400_0000
  const USER_HEAP_END: nat := 0x40_0000_0000

  /** Kernel memory behind an allocation: where it is and its layout. */
  datatype Backing = Backing(phys: nat, size: nat, align: nat) {
    predicate Legal() {
      && phys % PAGE_SIZE == 0 && phys < PHYSICAL_END && phys + size <= PHYSICAL_END
      && size > 0 && size % PAGE_SIZE == 0 && align > 0
    }
  }

  /** An entry of `allocated`. The source does not keep the flags; they are here to say what is mapped. */
  datatype Allocation = Allocation(virt: nat, backing: Backing, flags: PageFlags) {
    function Mapping(): Region { Region(virt, backing.phys, backing.size, flags) }

    function HeapBlock(): Buddy.Block { Buddy.Block(virt, Max(backing.size, backing.align)) }

    predicate InHeap() {
      backing.Legal() && USER_HEAP_START <= virt && HeapBlock().End() <= USER_HEAP_END
    }

    /** Made when the process was created: writable segments, inputs page and stack, all below the heap. */
    predicate IsSetup() {
      backing.Legal() && virt % PAGE_SIZE == 0 && virt + backing.size <= USER_HEAP_START
    }
  }

  ghost function Mappings(allocations: seq<Allocation>): set<Region> {
    set a <- allocations :: a.Mapping()
  }

  ghost function HeapBlocks(allocations: seq<Allocation>): set<Buddy.Block> {
    set a <- allocations | USER_HEAP_START <= a.virt :: a.HeapBlock()
  }

  ghost function SetupEntries(allocations: seq<Allocation>): set<Allocation> {
    set a <- allocations | a.virt < USER_HEAP_START
  }

  predicate Outside(q: Region) {
    q.size == 0 || q.End() <= USER_HEAP_START || USER_HEAP_END <= q.virt
  }

  ghost predicate DistinctAddresses(allocations: seq<Allocation>) {
    forall i, j :: 0 <= i < j < |allocations| ==> allocations[i].virt != allocations[j].virt
  }

  ghost predicate Placed(allocations: seq<Allocation>) {
    DistinctAddresses(allocations) && forall a <- allocations :: a.InHeap() || a.IsSetup()
  }

  /** What `create_process` allocates, in its order: writable segments of the program, inputs page, stack. */
  function SetupOf(segments: seq<Allocation>, inputs: Backing, stack: Backing): seq<Allocation> {
    segments + [Allocation(USER_INPUTS_START, inputs, PageEntries.Readonly().User()),
                Allocation(USER_STACK_START, stack, PageEntries.ReadWrite().User())]
  }

  /** The inputs can be read by the user, the stack also written. */
  lemma SetupIs(segments: seq<Allocation>, inputs: Backing, stack: Backing)
    ensures SetupOf(segments, inputs, stack) == segments + [Allocation(0x1000, inputs, PageEntries.PageFlags(0x12)),
                                                            Allocation(0x3000, stack, PageEntries.PageFlags(0x16))]
  {
    PageEntries.KernelFlagBits();
  }

  /** The entries overlap neither each other nor what is mapped besides. */
  ghost predicate SetupClear(setup: seq<Allocation>, fixed: set<Region>) {
    && (forall a <- setup :: a.IsSetup())
    && (forall i, j :: 0 <= i < j < |setup| ==> !Overlaps(setup[i].Mapping(), setup[j].Mapping()))
    && (forall q <- fixed, a <- setup :: !Overlaps(q, a.Mapping()))
  }

  /** `Aborted` is a kernel panic. */
  datatype AllocResult = Address(virt: nat) | Failed | AllocAborted

  datatype FreeResult = Freed | NotAllocated | FreeAborted

  class Process {
    var pageTable: PageTable
    var heap: BuddyAllocator
    var allocations: seq<Allocation>
    /** Mappings outside the heap that no entry of the list stands for. */
    ghost var fixed: set<Region>
    /** Shared memory and streams: blocks of the heap that are mapped without an entry in the list, and never freed. */
    ghost var unlisted: seq<Allocation>

    ghost function All(): seq<Allocation>
      reads this
    {
      unlisted + allocations
    }

    ghost predicate Valid()
      reads this, pageTable, pageTable.Repr, heap, heap.root, heap.root.Repr
    {
      && pageTable.Valid() && heap.Valid()
      && heap.start == USER_HEAP_START && heap.end == USER_HEAP_END && WholeHeap()
      && (forall q <- fixed :: Outside(q)) && Placed(All()) && (forall a <- unlisted :: USER_HEAP_START <= a.virt)
      && heap.Live() == HeapBlocks(All())
      && pageTable.live == fixed + Mappings(All())
    }

    /** Every byte of the range of the heap is free or in a live block, and no other is. */
    ghost predicate WholeHeap()
      reads this`heap, heap, heap.root, heap.root.Repr
    {
      forall a :: heap.IsUsable(a) <==> USER_HEAP_START <= a < USER_HEAP_END
    }

    /** What the heap needs to hand out `req` bytes. */
    ghost predicate HasRoom(req: nat)
      reads this`heap, heap, heap.root
    {
      exists p: nat, b: nat :: Buddy.FreeBlock(heap.root.tree, heap.rootNodeSize, p, b) && req <= b
    }

    /** Table and heap share no object. */
    ghost predicate Separate()
      reads this, pageTable, heap, heap.root
    {
      && pageTable in pageTable.Repr && heap.root in heap.root.Repr && pageTable.Repr !! heap.root.Repr
      && (this as object) !in pageTable.Repr && (this as object) !in heap.root.Repr
      && (heap as object) !in pageTable.Repr && (heap as object) !in heap.root.Repr
    }

    ghost function Setup(): set<Allocation>
      reads this
    {
      SetupEntries(allocations)
    }

    /** `create_process`, on a table with the mappings that are not in the list. */
    constructor (ghost fixed: set<Region>, table: PageTable, segments: seq<Allocation>, inputs: Backing, stack: Backing)
      requires table.Valid() && table.live == fixed && table in table.Repr && forall q <- fixed :: Outside(q)
      requires SetupClear(SetupOf(segments, inputs, stack), fixed)
      modifies table.Repr
      ensures Valid() && Separate() && fresh(heap) && fresh(heap.root.Repr) && fresh(pageTable.Repr - old(table.Repr))
      ensures pageTable == table && this.fixed == fixed && unlisted == [] && allocations == SetupOf(segments, inputs, stack)
      ensures allocations == segments + [Allocation(0x1000, inputs, PageEntries.PageFlags(0x12)),
                                         Allocation(0x3000, stack, PageEntries.PageFlags(0x16))]
      ensures forall a :: heap.IsFree(a) <==> USER_HEAP_START <= a < USER_HEAP_END
    {
      hide PageTable.Valid, BuddyAllocator.Valid, BuddyAllocator.Live, BuddyAllocator.IsFree, BuddyAllocator.IsUsable;
      hide BuddyAllocator.HidesNothing, BuddyAllocator.Unallocated, NextPowerOfTwo, Outside, SetupClear, SetupOf;
      hide Valid;
      pageTable := table;
      heap := new BuddyAllocator(USER_HEAP_START, USER_HEAP_END);
      allocations, unlisted := [], [];
      this.fixed := fixed;
      new;
      NewIsValid(this);
      AllocSetup(SetupOf(segments, inputs, stack));
      SetupIs(segments, inputs, stack);
    }

    method AllocSetup(setup: seq<Allocation>)
      requires Valid() && Separate() && All() == [] && SetupClear(setup, fixed)
      modifies this`allocations, pageTable.Repr
      ensures Valid() && Separate() && allocations == setup && fresh(pageTable.Repr - old(pageTable.Repr))
    {
      hide PageTable.Valid, BuddyAllocator.Valid, SetupClear, BuddyAllocator.Live, Placed, Mappings, HeapBlocks, WholeHeap;
      NothingAllocated(this);
      for i := 0 to |setup|
        invariant Valid() && Separate() && unlisted == [] && All() == allocations == setup[..i] && HeapBlocks(All()) == {}
        invariant fresh(pageTable.Repr - old(pageTable.Repr))
      {
        SetupIsNext(setup, fixed, i);
        AllocAt(setup[i].virt, setup[i].backing, setup[i].flags);
        assert All() == allocations == setup[..i + 1] == setup[..i] + [setup[i]];
      }
      assert setup[..|setup|] == setup;
    }

    /** Fails exactly when the heap has no large enough aligned free block, and then nothing has changed. A backing of no
        bytes has no physical address: once the heap has given a block, the kernel panics. */
    method Alloc(backing: Backing, flags: PageFlags) returns (result: AllocResult)
      requires Valid() && Separate() && (if backing.size == 0 then backing.align > 0 else backing.Legal())
      modifies this`allocations, pageTable.Repr, heap.root.Repr
      ensures result == AllocAborted <==> backing.size == 0 && old(HasRoom(backing.align))
      ensures result == Failed <==> !old(HasRoom(Max(backing.size, backing.align)))
      ensures result != AllocAborted ==>
                && Valid() && Separate() && heap.root == old(heap.root) && fresh(heap.root.Repr - old(heap.root.Repr))
                && fresh(pageTable.Repr - old(pageTable.Repr)) && Setup() == old(Setup())
      ensures result == Failed ==> allocations == old(allocations) && heap.root.tree == old(heap.root.tree)
      ensures result == Failed ==> pageTable.entries == old(pageTable.entries) && pageTable.live == old(pageTable.live)
      ensures result.Address? ==> allocations == old(allocations) + [Allocation(result.virt, backing, flags)]
    {
      hide PageTable.Valid, BuddyAllocator.Valid, BuddyAllocator.IsUsable, BuddyAllocator.IsFree, Buddy.FreeBlock;
      hide NextPowerOfTwo, BuddyAllocator.HidesNothing, BuddyAllocator.Live, HeapBlocks, Mappings, Placed, SetupEntries;
      var block := heap.Alloc(backing.size, backing.align);
      if block.None? {
        return Failed;
      }
      if backing.size == 0 {
        return AllocAborted;
      }
      ghost var a := Allocation(block.value, backing, flags);
      HeapIsNext(fixed, All(), a, heap.Live());
      SetupGrown(allocations, a);
      assert unlisted + (allocations + [a]) == All() + [a];
      AllocAt(block.value, backing, flags);
      return Address(block.value);
    }

    /** Shared memory and streams: maps `size` bytes at `phys` in a block of `request` bytes. `None` is the error of the system
        calls, and the panic of the scheduler, when the heap has no large enough block. */
    method MapShared(phys: nat, size: nat, request: nat, flags: PageFlags) returns (result: Option<nat>)
      requires Valid() && Separate() && Backing(phys, size, request).Legal()
      modifies this`unlisted, pageTable.Repr, heap.root.Repr
      ensures Valid() && Separate() && heap.root == old(heap.root) && fresh(heap.root.Repr - old(heap.root.Repr))
      ensures fresh(pageTable.Repr - old(pageTable.Repr))
      ensures result.None? <==> !old(HasRoom(Max(size, request)))
      ensures result.None? ==> unlisted == old(unlisted) && heap.root.tree == old(heap.root.tree)
      ensures result.None? ==> pageTable.entries == old(pageTable.entries)
      ensures result.Some? ==> unlisted == old(unlisted) + [Allocation(result.value, Backing(phys, size, request), flags)]
    {
      hide PageTable.Valid, BuddyAllocator.Valid, BuddyAllocator.IsUsable, BuddyAllocator.IsFree, Buddy.FreeBlock;
      hide NextPowerOfTwo, BuddyAllocator.HidesNothing, BuddyAllocator.Live, HeapBlocks, Mappings, Placed, SetupEntries;
      result := heap.Alloc(size, request);
      if result.Some? {
        ghost var a := Allocation(result.value, Backing(phys, size, request), flags);
        HeapIsNext(fixed, All(), a, heap.Live());
        Rearranged(unlisted, allocations, a);
        var ok := pageTable.Map(result.value, phys, size, flags);
        assert ok;
        unlisted := unlisted + [a];
      }
    }

    /** `alloc_at`: maps at an address that is free, and remembers. */
    method AllocAt(virt: nat, backing: Backing, flags: PageFlags)
      requires pageTable.Valid() && pageTable in pageTable.Repr && (this as object) !in pageTable.Repr
      requires Region(virt, backing.phys, backing.size, flags).Legal()
      requires forall q <- pageTable.live :: !Overlaps(q, Region(virt, backing.phys, backing.size, flags))
      modifies this`allocations, pageTable.Repr
      ensures pageTable.Valid() && pageTable in pageTable.Repr && (this as object) !in pageTable.Repr
      ensures fresh(pageTable.Repr - old(pageTable.Repr))
      ensures pageTable.live == old(pageTable.live) + {Region(virt, backing.phys, backing.size, flags)}
      ensures allocations == old(allocations) + [Allocation(virt, backing, flags)]
    {
      hide PageTable.Valid;
      var ok := pageTable.Map(virt, backing.phys, backing.size, flags);
      assert ok;
      allocations := allocations + [Allocation(virt, backing, flags)];
    }

    /** Frees the entry that starts at `ptr`, if there is one. If it was made when the process was created, the kernel has
        unmapped it when the heap finds it to lie before its range, and panics. */
    method Dealloc(ptr: nat) returns (result: FreeResult)
      requires Valid() && Separate()
      modifies this`allocations, pageTable.Repr, heap.root.Repr
      ensures result == NotAllocated <==> !exists a <- old(allocations) :: a.virt == ptr
      ensures result == FreeAborted <==> exists a <- old(Setup()) :: a.virt == ptr
      ensures result == FreeAborted ==> ptr < USER_HEAP_START
      ensures result != FreeAborted ==>
                && Valid() && Separate() && heap.root == old(heap.root) && heap.root.Repr == old(heap.root.Repr)
                && pageTable.Repr == old(pageTable.Repr) && Setup() == old(Setup())
      ensures result == NotAllocated ==> allocations == old(allocations) && heap.root.tree == old(heap.root.tree)
      ensures result == NotAllocated ==> pageTable.entries == old(pageTable.entries) && pageTable.live == old(pageTable.live)
      ensures result == Freed ==> exists i :: 0 <= i < |old(allocations)| && old(allocations)[i].virt == ptr
                                              && allocations == SwapRemoved(old(allocations), i)
    {
      hide PageTable.Valid, BuddyAllocator.Valid, BuddyAllocator.IsUsable, BuddyAllocator.IsFree, NextPowerOfTwo;
      hide BuddyAllocator.HidesNothing, BuddyAllocator.Live, HeapBlocks, Mappings, SwapRemoved;
      var i := 0;
      while i < |allocations| && allocations[i].virt != ptr
        invariant 0 <= i <= |allocations|
        invariant forall j :: 0 <= j < i ==> allocations[j].virt != ptr
      {
        i := i + 1;
      }
      if i == |allocations| {
        return NotAllocated;
      }
      var a := allocations[i];
      assert a in allocations && a in All();
      AtSetup(allocations, i);
      RemovedFromList(unlisted, allocations, i);
      Removed(fixed, All(), |unlisted| + i);
      allocations := SwapRemoved(allocations, i);
      pageTable.Unmap(a.virt, a.backing.phys, a.backing.size, a.flags);
      if a.virt < heap.start {
        return FreeAborted;
      }
      heap.Dealloc(a.virt, a.backing.size, a.backing.align);
      return Freed;
    }

    /** The system call: `memory` is where the kernel heap puts the pages, if it has them. Rounding up panics when it
        overflows. Nothing is allocated for zero bytes, so that the empty slice has no physical address: once the heap has
        given a byte, the kernel panics. */
    method SysAlloc(size: nat, memory: Option<nat>) returns (result: AllocResult)
      requires Valid() && Separate() && size < WORD_END
      requires memory.Some? && 0 < RoundedUp(size) < WORD_END ==> Backing(memory.value, RoundedUp(size), 1).Legal()
      modifies this`allocations, pageTable.Repr, heap.root.Repr
      ensures result == AllocAborted <==> RoundedUp(size) >= WORD_END || (size == 0 && exists a :: old(heap.IsFree(a)))
      ensures result != AllocAborted ==>
                && Valid() && Separate() && heap.root == old(heap.root) && fresh(heap.root.Repr - old(heap.root.Repr))
                && fresh(pageTable.Repr - old(pageTable.Repr)) && Setup() == old(Setup())
      ensures result == Failed ==> allocations == old(allocations) && pageTable.entries == old(pageTable.entries)
      ensures result == Failed && size > 0 && memory.Some? ==> !old(HasRoom(RoundedUp(size)))
      ensures result.Address? ==>
                && memory.Some?
                && allocations == old(allocations)
                     + [Allocation(result.virt, Backing(memory.value, RoundedUp(size), 1), PageEntries.ReadWrite().User())]
    {
      hide PageTable.Valid, BuddyAllocator.Valid, BuddyAllocator.IsUsable, BuddyAllocator.IsFree, Buddy.FreeBlock;
      hide NextPowerOfTwo, BuddyAllocator.HidesNothing, BuddyAllocator.Live, HeapBlocks, Mappings, Placed, SetupEntries;
      hide PageEntries.ReadWrite, HasRoom;
      var rounded := RoundedUp(size);
      if rounded >= WORD_END {
        return AllocAborted;
      }
      AnyByteIsRoom(this);
      if rounded == 0 {
        result := Alloc(Backing(0, 0, 1), PageEntries.ReadWrite().User());
        return;
      }
      if memory.None? {
        return Failed;
      }
      result := Alloc(Backing(memory.value, rounded, 1), PageEntries.ReadWrite().User());
    }
  }

  lemma NothingAllocated(p: Process)
    requires p.All() == []
    ensures Mappings(p.All()) == {} && HeapBlocks(p.All()) == {} && Placed(p.All())
  {
  }

  lemma NewIsValid(p: Process)
    requires p.pageTable.Valid() && p.pageTable.live == p.fixed && (forall q <- p.fixed :: Outside(q)) && p.All() == []
    requires p.heap.Valid() && p.heap.start == USER_HEAP_START && p.heap.end == USER_HEAP_END && p.heap.Live() == {}
    requires p.WholeHeap()
    ensures p.Valid()
  {
    hide PageTable.Valid, BuddyAllocator.Valid, BuddyAllocator.Live, Process.WholeHeap, Outside;
    NothingAllocated(p);
  }

  /** One byte can be handed out exactly when there is a free one. */
  lemma AnyByteIsRoom(p: Process)
    requires p.heap.Valid()
    ensures p.HasRoom(1) <==> exists a :: p.heap.IsFree(a)
  {
    hide Buddy.FreeBlock, Buddy.FreeAt;
    var t, size := p.heap.root.tree, p.heap.rootNodeSize;
    if q: nat, b: nat :| Buddy.FreeBlock(t, size, q, b) && 1 <= b {
      Buddy.FirstByteFree(t, size, q, b);
      assert p.heap.IsFree(p.heap.start + q);
    }
    if a :| p.heap.IsFree(a) {
      Buddy.ByteIsBlock(t, size, a - p.heap.start);
      var q: nat := a - p.heap.start;
      assert Buddy.FreeBlock(t, size, q, 1);
    }
  }

  function RoundedUp(size: nat): (r: nat)
    ensures size <= r < size + PAGE_SIZE && r % PAGE_SIZE == 0
  {
    (size + PAGE_SIZE - 1) / PAGE_SIZE * PAGE_SIZE
  }

  /** `swap_remove`: the last entry takes the place of entry `i`. */
  function SwapRemoved(allocations: seq<Allocation>, i: nat): seq<Allocation>
    requires i < |allocations|
  {
    var last := |allocations| - 1;
    allocations[i := allocations[last]][..last]
  }

  lemma SwapRemovedHas(allocations: seq<Allocation>, i: nat)
    requires i < |allocations|
    ensures forall b :: b in allocations && b != allocations[i] ==> b in SwapRemoved(allocations, i)
    ensures forall b <- SwapRemoved(allocations, i) :: b in allocations
  {
    var rest, last := SwapRemoved(allocations, i), |allocations| - 1;
    forall b | b in allocations && b != allocations[i] ensures b in rest {
      var j :| 0 <= j < |allocations| && allocations[j] == b;
      if j == last { assert rest[i] == b; } else { assert rest[j] == b; }
    }
  }

  lemma {:induction false} SwapRemovedElements(allocations: seq<Allocation>, i: nat)
    requires i < |allocations| && DistinctAddresses(allocations)
    ensures DistinctAddresses(SwapRemoved(allocations, i))
    ensures forall b :: b in SwapRemoved(allocations, i) <==> b in allocations && b != allocations[i]
  {
    SwapRemovedHas(allocations, i);
  }

  /** Removing the entry at `i` removes its mapping, and its heap block if it has one. */
  lemma Removed(fixed: set<Region>, allocations: seq<Allocation>, i: nat)
    requires i < |allocations| && Placed(allocations) && forall q <- fixed :: Outside(q)
    ensures var rest, a := SwapRemoved(allocations, i), allocations[i];
            && a.Mapping() in Mappings(allocations)
            && (USER_HEAP_START <= a.virt ==>
                  && Placed(rest) && SetupEntries(rest) == SetupEntries(allocations)
                  && a.HeapBlock() in HeapBlocks(allocations) && HeapBlocks(rest) == HeapBlocks(allocations) - {a.HeapBlock()}
                  && fixed + Mappings(rest) == fixed + Mappings(allocations) - {a.Mapping()})
  {
    var rest, a := SwapRemoved(allocations, i), allocations[i];
    SwapRemovedElements(allocations, i);
    assert a in allocations && (a.InHeap() || a.IsSetup());
    if USER_HEAP_START <= a.virt {
      NextPowerShape(a.HeapBlock().req);
      forall b <- rest ensures b.virt != a.virt {
        assert b in allocations;
        var j :| 0 <= j < |allocations| && allocations[j] == b;
      }
      forall q <- fixed ensures q != a.Mapping() { assert Outside(q); }
    }
  }

  lemma AtSetup(allocations: seq<Allocation>, i: nat)
    requires i < |allocations|
    ensures allocations[i].virt < USER_HEAP_START <==> exists a <- SetupEntries(allocations) :: a.virt == allocations[i].virt
  {
    assert allocations[i] in allocations;
  }

  lemma BlockIsPageAligned(virt: nat, req: nat)
    requires USER_HEAP_START <= virt && (virt - USER_HEAP_START) % NextPowerOfTwo(req) == 0 && PAGE_SIZE <= req
    ensures virt % PAGE_SIZE == 0 && req <= NextPowerOfTwo(req)
  {
    NextPowerShape(req);
    var n := NextPowerOfTwo(req);
    PageSizeIsPower();
    PowersDivide(PAGE_SIZE, n);
    DividesThrough(virt - USER_HEAP_START, n, PAGE_SIZE);
  }

  lemma PageSizeIsPower()
    ensures IsPowerOfTwo(PAGE_SIZE)
  {
    assert IsPowerOfTwo(0x10);
    assert IsPowerOfTwo(0x100);
    assert IsPowerOfTwo(0x1000);
  }

  lemma DividesThrough(x: nat, n: nat, d: nat)
    requires n > 0 && d > 0 && x % n == 0 && n % d == 0
    ensures x % d == 0
  {
    var a := Multiple(x, n);
    var b := Multiple(n, d);
    MulAssociates(a, b, d);
    DivModUnique(x, a * b, 0, d);
  }

  /** The mapping of a block just handed out shares no address with any mapping there is. */
  lemma NewMappingIsClear(fixed: set<Region>, allocations: seq<Allocation>, a: Allocation)
    requires forall q <- fixed :: Outside(q)
    requires a.backing.Legal() && USER_HEAP_START <= a.virt && a.HeapBlock().End() <= USER_HEAP_END
    requires Placed(allocations)
    requires Handed(a.virt, a.HeapBlock().req, HeapBlocks(allocations), HeapBlocks(allocations) + {a.HeapBlock()})
    ensures forall q <- fixed + Mappings(allocations) :: !Overlaps(q, a.Mapping())
    ensures a.Mapping().End() <= USER_HEAP_END
    ensures forall b <- allocations :: b.virt != a.virt
  {
    hide NextPowerOfTwo;
    NextPowerShape(a.HeapBlock().req);
    forall b <- allocations ensures !Overlaps(b.Mapping(), a.Mapping()) && b.virt != a.virt {
      assert b.InHeap() || b.IsSetup();
      if b.InHeap() {
        NextPowerShape(b.HeapBlock().req);
        assert b.HeapBlock() in HeapBlocks(allocations);
      }
    }
  }

  lemma Grown(allocations: seq<Allocation>, a: Allocation)
    requires Placed(allocations) && (a.InHeap() || a.IsSetup()) && forall b <- allocations :: b.virt != a.virt
    ensures Placed(allocations + [a])
    ensures Mappings(allocations + [a]) == Mappings(allocations) + {a.Mapping()}
    ensures HeapBlocks(allocations + [a]) == HeapBlocks(allocations) + if USER_HEAP_START <= a.virt then {a.HeapBlock()} else {}
    ensures SetupEntries(allocations + [a]) == SetupEntries(allocations) + if a.virt < USER_HEAP_START then {a} else {}
  {
  }

  /** A block just handed out can be mapped and recorded. */
  lemma HeapIsNext(fixed: set<Region>, allocations: seq<Allocation>, a: Allocation, live: set<Buddy.Block>)
    requires (forall q <- fixed :: Outside(q)) && Placed(allocations) && a.backing.Legal() && USER_HEAP_START <= a.virt
    requires Handed(a.virt, a.HeapBlock().req, HeapBlocks(allocations), live)
    requires a.HeapBlock().End() <= USER_HEAP_END && (a.virt - USER_HEAP_START) % NextPowerOfTwo(a.HeapBlock().req) == 0
    ensures a.Mapping().Legal() && forall q <- fixed + Mappings(allocations) :: !Overlaps(q, a.Mapping())
    ensures Placed(allocations + [a]) && HeapBlocks(allocations + [a]) == live
    ensures Mappings(allocations + [a]) == Mappings(allocations) + {a.Mapping()}
    ensures SetupEntries(allocations + [a]) == SetupEntries(allocations)
  {
    hide NextPowerOfTwo, HeapBlocks, Mappings, SetupEntries, Placed, Overlaps;
    BlockIsPageAligned(a.virt, Max(a.backing.size, a.backing.align));
    NewMappingIsClear(fixed, allocations, a);
    Grown(allocations, a);
  }

  lemma SetupGrown(allocations: seq<Allocation>, a: Allocation)
    requires USER_HEAP_START <= a.virt
    ensures SetupEntries(allocations + [a]) == SetupEntries(allocations)
  {
  }

  /** The order of the entries does not matter. */
  lemma Rearranged(unlisted: seq<Allocation>, allocations: seq<Allocation>, a: Allocation)
    requires Placed(unlisted + allocations + [a])
    ensures var now := (unlisted + [a]) + allocations;
            && Placed(now) && HeapBlocks(now) == HeapBlocks(unlisted + allocations + [a])
            && Mappings(now) == Mappings(unlisted + allocations + [a])
  {
    var before, now, n := unlisted + allocations + [a], (unlisted + [a]) + allocations, |unlisted|;
    assert forall b :: b in now <==> b in before;
    forall i, j | 0 <= i < j < |now| ensures now[i].virt != now[j].virt {
      var i', j' := Before(n, |allocations|, i), Before(n, |allocations|, j);
      assert before[i'] == now[i] && before[j'] == now[j];
    }
  }

  /** Where entry `i` was before the last one moved to place `n`. */
  function Before(n: nat, more: nat, i: nat): nat {
    if i < n then i else if i == n then n + more else i - 1
  }

  lemma RemovedFromList(unlisted: seq<Allocation>, allocations: seq<Allocation>, i: nat)
    requires i < |allocations|
    ensures SwapRemoved(unlisted + allocations, |unlisted| + i) == unlisted + SwapRemoved(allocations, i)
    ensures allocations[i].virt >= USER_HEAP_START ==>
              SetupEntries(SwapRemoved(allocations, i)) == SetupEntries(allocations)
    ensures (unlisted + allocations)[|unlisted| + i] == allocations[i]
  {
    SwapRemovedHas(allocations, i);
  }

  /** The next entry of a new process can be mapped and recorded. */
  lemma SetupIsNext(setup: seq<Allocation>, fixed: set<Region>, i: nat)
    requires SetupClear(setup, fixed) && i < |setup| && Placed(setup[..i]) && HeapBlocks(setup[..i]) == {}
    ensures setup[i].Mapping().Legal() && forall q <- fixed + Mappings(setup[..i]) :: !Overlaps(q, setup[i].Mapping())
    ensures Placed(setup[..i] + [setup[i]]) && HeapBlocks(setup[..i] + [setup[i]]) == {}
    ensures Mappings(setup[..i] + [setup[i]]) == Mappings(setup[..i]) + {setup[i].Mapping()}
  {
    hide Placed;
    assert setup[i] in setup;
    forall b <- setup[..i] ensures !Overlaps(b.Mapping(), setup[i].Mapping()) && b.virt != setup[i].virt {
      var j :| 0 <= j < i && setup[j] == b;
      assert b in setup;
    }
    Grown(setup[..i], setup[i]);
  }

  // ---------------------------------------------------------------- what a process sees

  /** In the heap, the hardware walk reaches the backing of the allocation that holds the address, and nothing else. */
  lemma HeapTranslations(p: Process, v: nat)
    requires p.Valid() && USER_HEAP_START <= v < USER_HEAP_END
    ensures forall a <- p.All() :: a.Mapping().Contains(v) ==>
                                           Walk(p.pageTable.entries, v, 2) == TranslationIn(a.Mapping(), v)
    ensures (forall a <- p.All() :: !a.Mapping().Contains(v)) ==> Walk(p.pageTable.entries, v, 2) == Fault
  {
    hide BuddyAllocator.Valid, Walk, Describes;
    WalkOfLive(p.pageTable.entries, p.pageTable.live, 0, 2, v);
    forall a <- p.All() ensures a.Mapping() in p.pageTable.live { }
    forall q <- p.pageTable.live | q.Contains(v) ensures exists a <- p.All() :: a.Mapping() == q {
      assert q in p.fixed ==> Outside(q);
    }
  }

  lemma AllocationsAreDisjoint(p: Process, a: Allocation, b: Allocation)
    requires p.Valid() && a in p.All() && b in p.All() && Overlaps(a.Mapping(), b.Mapping())
    ensures a == b
  {
    hide BuddyAllocator.Valid, Describes;
    assert a.Mapping() in p.pageTable.live && b.Mapping() in p.pageTable.live;
    LiveRegionsAreDisjoint(p.pageTable.entries, p.pageTable.live, a.Mapping(), b.Mapping());
    var i :| 0 <= i < |p.All()| && p.All()[i] == a;
    var j :| 0 <= j < |p.All()| && p.All()[j] == b;
  }

  /** Once only the entries made at creation are left, in whatever order, the page table is the one that the process
      started with, and the whole heap is free, if nothing was shared with it. */
  lemma FreeingEverythingRestores(p: Process, start: seq<Allocation>, t: seq<Entry>)
    requires p.Valid() && p.unlisted == [] && p.Setup() == SetupEntries(start)
    requires forall a <- p.allocations :: a.virt < USER_HEAP_START
    requires (forall a <- start :: a.virt < USER_HEAP_START) && Describes(t, p.fixed + Mappings(start), 0, 2)
    ensures p.pageTable.entries == t
    ensures forall a :: p.heap.IsFree(a) <==> USER_HEAP_START <= a < USER_HEAP_END
  {
    hide Describes, BuddyAllocator.IsFree, BuddyAllocator.IsUsable;
    assert p.All() == p.allocations;
    SameMappings(p.allocations, start);
    TableIsCanonical(p.pageTable.entries, t, p.pageTable.live, 0, 2);
    NothingLive(p);
  }

  lemma SameMappings(a: seq<Allocation>, b: seq<Allocation>)
    requires (forall x <- a :: x.virt < USER_HEAP_START) && (forall x <- b :: x.virt < USER_HEAP_START)
    requires SetupEntries(a) == SetupEntries(b)
    ensures Mappings(a) == Mappings(b)
  {
    forall x <- a ensures x in b { assert x in SetupEntries(a); }
    forall x <- b ensures x in a { assert x in SetupEntries(b); }
  }

  lemma NothingLive(p: Process)
    requires p.Valid() && p.unlisted == [] && forall a <- p.allocations :: a.virt < USER_HEAP_START
    ensures forall a :: p.heap.IsFree(a) <==> USER_HEAP_START <= a < USER_HEAP_END
  {
    assert HeapBlocks(p.All()) == {};
    assert forall a :: p.heap.IsFree(a) <==> p.heap.IsUsable(a);
  }

  // ---------------------------------------------------------------- runs

  /** The stack is in the list, so a process that frees its own stack takes the kernel down. */
  method FreeOfStackAborts(p: Process, segments: seq<Allocation>, inputs: Backing, stack: Backing) returns (result: FreeResult)
    requires p.Valid() && p.Separate() && p.allocations == SetupOf(segments, inputs, stack)
    modifies p`allocations, p.pageTable.Repr, p.heap.root.Repr
    ensures result == FreeAborted
  {
    hide Process.Valid, Process.Separate, PageEntries.Readonly, PageEntries.ReadWrite;
    assert p.allocations[|segments| + 1] in p.allocations;
    assert p.allocations[|segments| + 1] in p.Setup();
    result := p.Dealloc(USER_STACK_START);
  }

  /** An allocation of no bytes by a process that has just started takes the kernel down. */
  method EmptyAllocAborts(table: PageTable, segments: seq<Allocation>, inputs: Backing, stack: Backing)
    returns (result: AllocResult)
    requires table.Valid() && table in table.Repr && forall q <- table.live :: Outside(q)
    requires SetupClear(SetupOf(segments, inputs, stack), table.live)
    modifies table.Repr
    ensures result == AllocAborted
  {
    hide PageTable.Valid, SetupClear, SetupOf, Outside, Process.Valid, BuddyAllocator.IsFree;
    var p := new Process(table.live, table, segments, inputs, stack);
    assert p.heap.IsFree(USER_HEAP_START);
    result := p.SysAlloc(0, None);
  }

  datatype Call =
    | AllocCall(size: nat, memory: Option<nat>)
    | FreeCall(ptr: nat)
    | MapCall(phys: nat, length: nat, request: nat, flags: PageFlags)
  {
    /** A size that a register can hold, and memory that the kernel can give or share. */
    predicate Legal() {
      match this
      case AllocCall(size, memory) =>
        && size < WORD_END
        && (memory.Some? && 0 < RoundedUp(size) < WORD_END ==> Backing(memory.value, RoundedUp(size), 1).Legal())
      case FreeCall(_) => true
      case MapCall(phys, length, request, _) => Backing(phys, length, request).Legal()
    }

    predicate IsEmpty() { AllocCall? && size == 0 }

    predicate IsTooLarge() { AllocCall? && RoundedUp(size) >= WORD_END }

    ghost predicate HitsSetup(setup: set<Allocation>) {
      FreeCall? && exists a <- setup :: a.virt == ptr
    }
  }

  /** A run of allocations, frees and mappings of shared memory fires an assertion whenever some free names an entry made
      when the process was created or some size cannot be rounded up, and but for empty allocations only then; otherwise
      heap, table and list stay in step. When an empty allocation does is in `SysAlloc`. */
  method Replay(p: Process, calls: seq<Call>) returns (aborted: bool)
    requires p.Valid() && p.Separate() && forall c <- calls :: c.Legal()
    modifies p`allocations, p`unlisted, p.pageTable.Repr, p.heap.root.Repr
    ensures (exists c <- calls :: c.HitsSetup(old(p.Setup())) || c.IsTooLarge()) ==> aborted
    ensures aborted ==> exists c <- calls :: c.HitsSetup(old(p.Setup())) || c.IsTooLarge() || c.IsEmpty()
    ensures !aborted ==> p.Valid() && p.Separate() && p.Setup() == old(p.Setup())
  {
    hide PageTable.Valid, BuddyAllocator.Valid, BuddyAllocator.IsUsable, Process.Valid, Buddy.FreeBlock, SetupEntries;
    hide RoundedUp;
    ghost var setup := p.Setup();
    for i := 0 to |calls|
      invariant p.Valid() && p.Separate() && p.heap.root == old(p.heap.root) && p.Setup() == setup
      invariant fresh(p.heap.root.Repr - old(p.heap.root.Repr)) && fresh(p.pageTable.Repr - old(p.pageTable.Repr))
      invariant forall j :: 0 <= j < i ==> !calls[j].HitsSetup(setup) && !calls[j].IsTooLarge()
    {
      assert calls[i] in calls;
      match calls[i] {
        case AllocCall(size, memory) =>
          var result := p.SysAlloc(size, memory);
          if result == AllocAborted {
            return true;
          }
        case FreeCall(ptr) =>
          var result := p.Dealloc(ptr);
          if result == FreeAborted {
            return true;
          }
        case MapCall(phys, length, request, flags) =>
          var result := p.MapShared(phys, length, request, flags);
      }
    }
    return false;
  }
}
