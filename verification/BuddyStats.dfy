/** What `stats` reports: the sum of live requests, and the free bytes up to hidden reservations. */
module BuddyStats {
  import opened Arithmetic
  import opened Options
  import opened Powers
  import opened Buddy

  ghost function SumOfRequests(blocks: set<Block>): nat {
    if blocks == {} then 0
    else
      var b :| b in blocks;
      b.req + SumOfRequests(blocks - {b})
  }

  lemma {:induction false} SumWithout(blocks: set<Block>, b: Block)
    requires b in blocks
    ensures SumOfRequests(blocks) == b.req + SumOfRequests(blocks - {b})
    decreases blocks
  {
    var c :| c in blocks && SumOfRequests(blocks) == c.req + SumOfRequests(blocks - {c});
    if c != b {
      SumWithout(blocks - {c}, b);
      SumWithout(blocks - {b}, c);
      assert blocks - {c} - {b} == blocks - {b} - {c};
    }
  }

  lemma {:induction false} SumOfUnion(a: set<Block>, b: set<Block>)
    requires a !! b
    ensures SumOfRequests(a + b) == SumOfRequests(a) + SumOfRequests(b)
    decreases a
  {
    if a == {} {
      assert a + b == b;
    } else {
      var x :| x in a;
      SumWithout(a, x);
      SumWithout(a + b, x);
      assert a + b - {x} == (a - {x}) + b;
      SumOfUnion(a - {x}, b);
    }
  }

  lemma BranchShape(t: Tree, size: nat)
    requires IsPowerOfTwo(size) && Wf(t, size) && t.Branch?
    ensures size > 1 && IsPowerOfTwo(size / 2) && size == size / 2 + size / 2
    ensures Wf(t.left, size / 2) && Wf(t.right, size / 2)
    ensures Taken(t, size) ==> t.left.max == size / 2 && t.right.max == size / 2
    ensures t.max == size ==> t.request == 0 && !Taken(t, size) && t.left.max == size / 2 && t.right.max == size / 2
    ensures t.request != 0 ==> Taken(t, size)
  {
    Halves(size);
    if t.max == size { FullChildren(t, size); }
  }

  lemma {:induction false} FullStats(t: Tree, size: nat)
    requires IsPowerOfTwo(size) && Wf(t, size) && t.max == size
    ensures StatsAlloc(t) == 0 && StatsFree(t) == size
    decreases t
  {
    hide Wf, IsPowerOfTwo, Taken;
    if t.Leaf? {
      FullHasNoBlocks(t, 0, size);
    } else {
      BranchShape(t, size);
      FullStats(t.left, size / 2);
      FullStats(t.right, size / 2);
    }
  }

  lemma SidesApart(t: Tree, off: nat, size: nat)
    requires IsPowerOfTwo(size) && Wf(t, size) && t.Branch?
    ensures Blocks(t.left, off, size / 2) !! Blocks(t.right, off + size / 2, size / 2)
  {
    hide Blocks, NextPowerOfTwo;
    Halves(size);
    forall b | b in Blocks(t.left, off, size / 2) ensures b !in Blocks(t.right, off + size / 2, size / 2) {
      BlocksInRange(t.left, off, size / 2, b);
      if b in Blocks(t.right, off + size / 2, size / 2) { BlocksInRange(t.right, off + size / 2, size / 2, b); }
    }
  }

  /** In every tree `stats().alloc` is the sum of the sizes that live callers asked for. */
  lemma {:induction false} StatsAllocIsSum(t: Tree, off: nat, size: nat)
    requires IsPowerOfTwo(size) && Wf(t, size)
    ensures StatsAlloc(t) == SumOfRequests(Blocks(t, off, size))
    decreases t
  {
    hide Wf, IsPowerOfTwo, Taken;
    if t.request != 0 {
      SumWithout({Block(off, t.request)}, Block(off, t.request));
      assert {Block(off, t.request)} - {Block(off, t.request)} == {};
    } else if t.Branch? {
      BranchShape(t, size);
      if Taken(t, size) {
        FullStats(t.left, size / 2);
        FullStats(t.right, size / 2);
      } else {
        StatsAllocIsSum(t.left, off, size / 2);
        StatsAllocIsSum(t.right, off + size / 2, size / 2);
        SidesApart(t, off, size);
        SumOfUnion(Blocks(t.left, off, size / 2), Blocks(t.right, off + size / 2, size / 2));
      }
    }
  }

  // ---------------------------------------------------------------- free bytes

  /** How many of the first `n` bytes are free. */
  ghost function FreeCount(t: Tree, size: nat, n: nat): nat {
    if n == 0 then 0 else FreeCount(t, size, n - 1) + if FreeAt(t, size, n - 1) then 1 else 0
  }

  /** Bytes under reserved nodes whose children still look free: `stats` counts these too. */
  function Hidden(t: Tree, size: nat): nat
    decreases t
  {
    if t.request != 0 || t.Leaf? then 0
    else if Taken(t, size) then size
    else Hidden(t.left, size / 2) + Hidden(t.right, size / 2)
  }

  lemma {:induction false} CountOfLeft(t: Tree, l: Tree, r: Tree, size: nat, n: nat)
    requires Opens(t, l, r, size, 0) && n <= size / 2
    ensures FreeCount(t, size, n) == FreeCount(l, size / 2, n)
  {
    hide FreeAt, Blocks;
    if n > 0 { CountOfLeft(t, l, r, size, n - 1); }
  }

  lemma {:induction false} CountOfRight(t: Tree, l: Tree, r: Tree, size: nat, n: nat)
    requires Opens(t, l, r, size, 0)
    ensures FreeCount(t, size, size / 2 + n) == FreeCount(l, size / 2, size / 2) + FreeCount(r, size / 2, n)
  {
    hide FreeAt, Blocks;
    if n == 0 {
      CountOfLeft(t, l, r, size, size / 2);
    } else {
      CountOfRight(t, l, r, size, n - 1);
    }
  }

  lemma {:induction false} CountOfUniform(t: Tree, size: nat, n: nat, free: bool)
    requires forall a :: 0 <= a < n ==> FreeAt(t, size, a) == free
    ensures FreeCount(t, size, n) == if free then n else 0
  {
    if n > 0 { CountOfUniform(t, size, n - 1, free); }
  }

  lemma UniformCount(t: Tree, size: nat)
    requires Wf(t, size) && (t.Leaf? || Taken(t, size))
    ensures FreeCount(t, size, size) == if Taken(t, size) then 0 else size
    ensures t.Leaf? && !Taken(t, size) ==> t.max == size && t.request == 0
  {
    if Taken(t, size) { TakenIsEmpty(t, size); }
    CountOfUniform(t, size, size, !Taken(t, size));
  }

  lemma CountOfBranch(t: Tree, size: nat)
    requires IsPowerOfTwo(size) && Wf(t, size) && t.Branch? && !Taken(t, size)
    ensures FreeCount(t, size, size) == FreeCount(t.left, size / 2, size / 2) + FreeCount(t.right, size / 2, size / 2)
    ensures t.request == 0
  {
    hide FreeAt, Blocks;
    BranchShape(t, size);
    ChildrenOf(t, size, 0);
    CountOfRight(t, t.left, t.right, size, size / 2);
  }

  /** `stats().free` is the number of free bytes plus the bytes of hidden reservations, in every tree. */
  lemma {:induction false} StatsFreeIsCount(t: Tree, size: nat)
    requires IsPowerOfTwo(size) && Wf(t, size)
    ensures StatsFree(t) == FreeCount(t, size, size) + Hidden(t, size)
    decreases t
  {
    hide Wf, IsPowerOfTwo, FreeAt, FreeCount, Taken, StatsFree, Hidden;
    if t.Leaf? || Taken(t, size) {
      StatsOfWhole(t, size);
    } else {
      BranchShape(t, size);
      CountOfBranch(t, size);
      StatsOfOpen(t, size);
      StatsFreeIsCount(t.left, size / 2);
      StatsFreeIsCount(t.right, size / 2);
    }
  }

  lemma StatsOfWhole(t: Tree, size: nat)
    requires IsPowerOfTwo(size) && Wf(t, size) && (t.Leaf? || Taken(t, size))
    ensures StatsFree(t) == FreeCount(t, size, size) + Hidden(t, size)
  {
    hide FreeAt, FreeCount;
    UniformCount(t, size);
    if t.Branch? && t.request == 0 {
      BranchShape(t, size);
      FullStats(t.left, size / 2);
      FullStats(t.right, size / 2);
    }
  }

  lemma StatsOfOpen(t: Tree, size: nat)
    requires t.Branch? && t.request == 0 && !Taken(t, size)
    ensures StatsFree(t) == StatsFree(t.left) + StatsFree(t.right)
    ensures Hidden(t, size) == Hidden(t.left, size / 2) + Hidden(t.right, size / 2)
  {
  }

  // ---------------------------------------------------------------- reservations before allocations

  /** No node with children is full or taken: the shape before the first allocation. */
  predicate Fresh(t: Tree, size: nat)
    decreases t
  {
    t.request == 0 &&
    (t.Branch? ==> t.max != size && !Taken(t, size) && Fresh(t.left, size / 2) && Fresh(t.right, size / 2))
  }

  lemma {:induction false} FreshHidesNothing(t: Tree, size: nat)
    requires Fresh(t, size)
    ensures Hidden(t, size) == 0
    decreases t
  {
    if t.Branch? {
      FreshHidesNothing(t.left, size / 2);
      FreshHidesNothing(t.right, size / 2);
    }
  }

  lemma {:induction false} NewIsFresh(bytes: nat, size: nat)
    requires IsPowerOfTwo(size) && bytes <= size
    ensures Fresh(New(bytes, size), size)
    decreases size
  {
    hide IsPowerOfTwo, Taken;
    if 0 < bytes < size {
      Halves(size);
      var half := size / 2;
      var lower, upper := if half < bytes then half else bytes, if half < bytes then bytes - half else 0;
      NewIsFresh(lower, half);
      NewIsFresh(upper, half);
      NewIsOpen(bytes, size);
    }
  }

  lemma NewIsOpen(bytes: nat, size: nat)
    requires IsPowerOfTwo(size) && 0 < bytes < size
    ensures var t := New(bytes, size);
            t.max != size && !Taken(t, size)
  {
    hide FreeAt, Blocks, Wf;
    Halves(size);
    NewWorks(bytes, size, 0);
    NotFull(New(bytes, size), size, bytes);
    OpenJoin(New(bytes, size), size);
  }

  /** A tree with a byte that is not free is not full. */
  lemma NotFull(t: Tree, size: nat, a: nat)
    requires IsPowerOfTwo(size) && Wf(t, size) && a < size && !FreeAt(t, size, a)
    ensures t.max != size
  {
    MaxIsPower(t, size);
  }

  lemma {:induction false} ReserveKeepsFresh(t: Tree, lo: nat, hi: nat, size: nat)
    requires IsPowerOfTwo(size) && Wf(t, size) && Fresh(t, size) && lo < hi <= size && FreeRange(t, size, lo, hi)
    ensures Fresh(Reserve(t, lo, hi, size), size)
    decreases size
  {
    hide Wf, IsPowerOfTwo, FreeAt, Blocks, FreeRange, Opens, Taken, Join;
    if lo == 0 && hi == size {
      ReserveWorks(t, lo, hi, size, 0);
    } else {
      var half := size / 2;
      LoIsOpen(t, size, lo, hi);
      Halves(size);
      ChildrenOf(t, size, 0);
      var (l, r) := GetChildren(t, size);
      FreeHalves(t, l, r, lo, hi, size);
      if lo < half { ReserveKeepsFresh(l, lo, if hi < half then hi else half, half); }
      if hi > half { ReserveKeepsFresh(r, (if lo < half then half else lo) - half, hi - half, half); }
      ReserveNotFull(t, lo, hi, size);
      FreshChildren(t, size);
    }
  }

  lemma FreshChildren(t: Tree, size: nat)
    requires Fresh(t, size)
    ensures var (l, r) := GetChildren(t, size);
            Fresh(l, size / 2) && Fresh(r, size / 2)
  {
  }

  lemma LoIsOpen(t: Tree, size: nat, lo: nat, hi: nat)
    requires lo < hi && FreeRange(t, size, lo, hi) && IsPowerOfTwo(size) && !(lo == 0 && hi == size) && hi <= size
    ensures !Taken(t, size) && size > 1
  {
    FreeMeansOpen(t, size, lo);
  }

  lemma ReserveNotFull(t: Tree, lo: nat, hi: nat, size: nat)
    requires IsPowerOfTwo(size) && Wf(t, size) && lo < hi <= size && FreeRange(t, size, lo, hi)
    requires !(lo == 0 && hi == size)
    ensures var u := Reserve(t, lo, hi, size);
            && u.Branch? && u.max != size && !Taken(u, size) && u.request == t.request
            && var half := size / 2;
               var (l, r) := GetChildren(t, size);
               && u.left == (if lo < half then Reserve(l, lo, if hi < half then hi else half, half) else l)
               && u.right == if hi > half then Reserve(r, (if lo < half then half else lo) - half, hi - half, half) else r
  {
    hide FreeAt, Blocks, Wf, Opens, Taken, GetChildren;
    LoIsOpen(t, size, lo, hi);
    ReserveWorks(t, lo, hi, size, 0);
    ReserveTook(t, Reserve(t, lo, hi, size), lo, hi, size);
    OpenJoin(Reserve(t, lo, hi, size), size);
  }

  lemma ReserveTook(t: Tree, u: Tree, lo: nat, hi: nat, size: nat)
    requires IsPowerOfTwo(size) && ReserveEffect(t, u, lo, hi, size, 0) && lo < hi <= size
    ensures u.max != size
  {
    hide Blocks;
    NotFull(u, size, lo);
  }

  lemma OpenJoin(t: Tree, size: nat)
    requires t.Branch? && size > 1 && t.max == Combine(t.left.max, t.right.max, size) && IsPowerOfTwo(size)
    ensures !Taken(t, size)
  {
    Halves(size);
  }

  lemma FreeHalves(t: Tree, l: Tree, r: Tree, lo: nat, hi: nat, size: nat)
    requires IsPowerOfTwo(size) && size > 1 && lo < hi <= size && FreeRange(t, size, lo, hi) && Opens(t, l, r, size, 0)
    ensures var half := size / 2;
            && (lo < half ==> FreeRange(l, half, lo, if hi < half then hi else half))
            && (hi > half ==> FreeRange(r, half, (if lo < half then half else lo) - half, hi - half))
  {
    hide FreeAt, Blocks;
    Halves(size);
    var half := size / 2;
    forall a | lo <= a < hi ensures if a < half then FreeAt(l, half, a) else FreeAt(r, half, a - half) {
      assert FreeAt(t, size, a);
    }
    forall a | 0 <= a && lo - half <= a < hi - half ensures FreeAt(r, half, a) { assert FreeAt(t, size, a + half); }
  }

  lemma {:induction false} AllocHidesNothing(t: Tree, req: nat, size: nat)
    requires IsPowerOfTwo(size) && Wf(t, size) && 0 < req && Alloc(t, req, size).Some?
    ensures Hidden(Alloc(t, req, size).value.1, size) == Hidden(t, size)
    decreases size
  {
    hide Wf, IsPowerOfTwo, FreeAt, Blocks, FreeRange, Opens, AllocEffect, Taken, Join, Hidden, NextPowerOfTwo, Combine;
    AllocWorks(t, req, size, 0);
    if req > size / 2 {
      TakeWhole(t, req, size, 0);
      FullHidesNothing(t, size);
      RequestedHidesNothing(t.(max := 0, request := req), size);
    } else {
      PositiveIsOpen(t, size);
      Halves(size);
      ChildrenOf(t, size, 0);
      var (l, r) := GetChildren(t, size);
      HiddenOfJoin(l, r, t.request, size);
      if (l.max >= req && l.max <= r.max) || r.max < req {
        AllocWorks(l, req, size / 2, 0);
        AllocHidesNothing(l, req, size / 2);
        HiddenOfJoin(Alloc(l, req, size / 2).value.1, r, t.request, size);
      } else {
        AllocWorks(r, req, size / 2, 0);
        AllocHidesNothing(r, req, size / 2);
        HiddenOfJoin(l, Alloc(r, req, size / 2).value.1, t.request, size);
      }
      HiddenOfOpen(t, l, r, size);
    }
  }

  lemma RequestedHidesNothing(t: Tree, size: nat)
    requires t.request != 0
    ensures Hidden(t, size) == 0
  {
  }

  lemma HiddenOfJoin(l: Tree, r: Tree, request: nat, size: nat)
    requires IsPowerOfTwo(size) && size > 1 && request == 0
    ensures Hidden(Join(l, r, request, size), size) == Hidden(l, size / 2) + Hidden(r, size / 2)
  {
    Halves(size);
    OpenJoin(Join(l, r, request, size), size);
  }

  lemma HiddenOfOpen(t: Tree, l: Tree, r: Tree, size: nat)
    requires !Taken(t, size) && (l, r) == GetChildren(t, size) && (t.request != 0 ==> Taken(t, size))
    ensures Hidden(t, size) == Hidden(l, size / 2) + Hidden(r, size / 2)
  {
  }

  lemma {:induction false} FullHidesNothing(t: Tree, size: nat)
    requires IsPowerOfTwo(size) && Wf(t, size) && t.max == size
    ensures Hidden(t, size) == 0
    decreases t
  {
    if t.Branch? {
      FullChildren(t, size);
      FullHidesNothing(t.left, size / 2);
      FullHidesNothing(t.right, size / 2);
    }
  }

  lemma {:induction false} DeallocHidesNothing(t: Tree, ptr: nat, req: nat, size: nat)
    requires IsPowerOfTwo(size) && Wf(t, size) && 0 < req && Dealloc(t, ptr, req, size).Some?
    ensures Hidden(Dealloc(t, ptr, req, size).value, size) == Hidden(t, size)
    decreases t
  {
    hide Wf, IsPowerOfTwo, FreeAt, Blocks, DeallocEffect, Taken, Join, Hidden, NextPowerOfTwo;
    DeallocWorks(t, ptr, req, size, 0);
    if ptr == 0 && req > size / 2 {
      GivenBack(t, ptr, req, size);
    } else {
      var half := size / 2;
      BranchBlocks(t, ptr, req, size, 0);
      BranchShape(t, size);
      HiddenOfOpen(t, t.left, t.right, size);
      if ptr < half {
        DeallocWorks(t.left, ptr, req, half, 0);
        DeallocHidesNothing(t.left, ptr, req, half);
        HiddenOfJoin(Dealloc(t.left, ptr, req, half).value, t.right, t.request, size);
      } else {
        DeallocWorks(t.right, ptr - half, req, half, half);
        DeallocHidesNothing(t.right, ptr - half, req, half);
        HiddenOfJoin(t.left, Dealloc(t.right, ptr - half, req, half).value, t.request, size);
      }
    }
  }

  lemma GivenBack(t: Tree, ptr: nat, req: nat, size: nat)
    requires IsPowerOfTwo(size) && Wf(t, size) && 0 < req && Dealloc(t, ptr, req, size).Some? && ptr == 0 && req > size / 2
    ensures Hidden(Dealloc(t, ptr, req, size).value, size) == Hidden(t, size)
  {
    hide FreeAt, Blocks, DeallocEffect;
    DeallocWorks(t, ptr, req, size, 0);
    WfOfDealloc(t, ptr, req, size);
    FullHidesNothing(t.(max := size, request := 0), size);
    RequestedHidesNothing(t, size);
  }

  lemma WfOfDealloc(t: Tree, ptr: nat, req: nat, size: nat)
    requires 0 < req && Dealloc(t, ptr, req, size).Some? && DeallocEffect(t, Dealloc(t, ptr, req, size).value, req, size, 0, ptr)
    ensures Wf(Dealloc(t, ptr, req, size).value, size)
  {
  }

  /** Every node that a reservation of `lo..hi` takes whole is still without children. */
  predicate CoversChildless(t: Tree, lo: nat, hi: nat, size: nat)
    requires IsPowerOfTwo(size) && lo < hi <= size
    decreases size
  {
    if lo == 0 && hi == size then t.Leaf?
    else
      var half := size / 2;
      var (l, r) := GetChildren(t, size);
      && (lo < half ==> CoversChildless(l, lo, if hi < half then hi else half, half))
      && (hi > half ==> CoversChildless(r, (if lo < half then half else lo) - half, hi - half, half))
  }

  /** A reservation leaves the free figure exact exactly when it was and every node taken whole has no children. */
  lemma {:induction false} ReserveHidesIff(t: Tree, lo: nat, hi: nat, size: nat)
    requires IsPowerOfTwo(size) && Wf(t, size) && lo < hi <= size && FreeRange(t, size, lo, hi)
    ensures Hidden(Reserve(t, lo, hi, size), size) == 0 <==> Hidden(t, size) == 0 && CoversChildless(t, lo, hi, size)
    decreases size
  {
    hide Wf, IsPowerOfTwo, FreeAt, Blocks, FreeRange, Opens, Taken, Join, Hidden;
    if lo == 0 && hi == size {
      WholeHidesIff(t, size);
    } else {
      var half := size / 2;
      LoIsOpen(t, size, lo, hi);
      Halves(size);
      ChildrenOf(t, size, 0);
      var (l, r) := GetChildren(t, size);
      FreeHalves(t, l, r, lo, hi, size);
      if lo < half { ReserveHidesIff(l, lo, if hi < half then hi else half, half); }
      if hi > half { ReserveHidesIff(r, (if lo < half then half else lo) - half, hi - half, half); }
      ReserveNotFull(t, lo, hi, size);
      HiddenOfOpen(t, l, r, size);
      HiddenOfBranch(Reserve(t, lo, hi, size), size);
    }
  }

  lemma WholeHidesIff(t: Tree, size: nat)
    requires IsPowerOfTwo(size) && Wf(t, size) && FreeRange(t, size, 0, size)
    ensures Hidden(t, size) == 0
    ensures Hidden(t.(max := 0), size) == 0 <==> t.Leaf?
  {
    hide FreeAt, Blocks;
    ReserveWorks(t, 0, size, size, 0);
    FullHidesNothing(t, size);
    assert FreeAt(t, size, 0);
    FreeMeansOpen(t, size, 0);
    OpenHasNoRequest(t, size);
  }

  lemma HiddenOfBranch(t: Tree, size: nat)
    requires t.Branch? && !Taken(t, size) && t.request == 0
    ensures Hidden(t, size) == Hidden(t.left, size / 2) + Hidden(t.right, size / 2)
  {
  }

  /** A reservation after an allocation can hide children, and then `stats` reports free bytes there are not. */
  lemma LateReservationMisleadsStats()
    ensures var t := Dealloc(Alloc(New(2, 2), 1, 2).value.1, 0, 1, 2).value;
            var u := Reserve(t, 0, 2, 2);
            FreeCount(u, 2, 2) == 0 && StatsFree(u) == 2
  {
    var t0 := Leaf(2, 0);
    assert IsPowerOfTwo(1) && IsPowerOfTwo(2);
    assert Alloc(Leaf(1, 0), 1, 1) == Some((0, Leaf(0, 1)));
    assert Alloc(t0, 1, 2) == Some((0, Branch(1, 0, Leaf(0, 1), Leaf(1, 0))));
    assert Dealloc(Leaf(0, 1), 0, 1, 1) == Some(Leaf(1, 0));
    var t := Branch(2, 0, Leaf(1, 0), Leaf(1, 0));
    assert Dealloc(Branch(1, 0, Leaf(0, 1), Leaf(1, 0)), 0, 1, 2) == Some(t);
    TakenIsEmpty(t.(max := 0), 2);
  }
}
