/** The buddy allocator as the kernel runs it: nodes in memory, updated in place. */
module BuddyAllocators {
  import opened Arithmetic
  import opened Options
  import opened Powers
  import opened Buddy
  import opened BuddyChoices
  import opened BuddyStats

  /** One level of `Reserve`. */
  lemma ReserveSplits(t: Buddy.Tree, lo: nat, hi: nat, size: nat)
    requires IsPowerOfTwo(size) && IsPowerOfTwo(size / 2) && lo < hi <= size && !(lo == 0 && hi == size)
    ensures var half, (l, r) := size / 2, Buddy.GetChildren(t, size);
            && half + half == size
            && Reserve(t, lo, hi, size)
               == Join(if lo < half then Reserve(l, lo, if hi < half then hi else half, half) else l,
                       if hi > half then Reserve(r, (if lo < half then half else lo) - half, hi - half, half) else r,
                       t.request, size)
  {
    hide IsPowerOfTwo;
    Halves(size);
  }

  /** A node of the tree. `request` is the source's `allocated`, which is a reserved word here. */
  class Node {
    var max: nat
    var request: nat
    var left: Node?
    var right: Node?
    ghost var tree: Tree
    ghost var Repr: set<object>

    ghost predicate Valid()
      reads this, Repr
      decreases Repr
    {
      && this in Repr
      && (left == null <==> right == null)
      && (left == null ==> tree == Leaf(max, request))
      && (left != null && right != null ==>
            && left in Repr && right in Repr && left.Repr <= Repr && right.Repr <= Repr
            && this !in left.Repr && this !in right.Repr && left.Repr !! right.Repr
            && left.Valid() && right.Valid()
            && tree == Branch(max, request, left.tree, right.tree))
    }

    constructor Childless(max: nat)
      ensures Valid() && fresh(Repr) && tree == Leaf(max, 0)
    {
      this.max, request, left, right := max, 0, null, null;
      tree, Repr := Leaf(max, 0), {this};
    }

    constructor WithChildren(max: nat, left: Node, right: Node)
      requires left.Valid() && right.Valid() && left.Repr !! right.Repr
      ensures Valid() && fresh(Repr - left.Repr - right.Repr) && tree == Branch(max, 0, left.tree, right.tree)
    {
      this.max, request, this.left, this.right := max, 0, left, right;
      tree, Repr := Branch(max, 0, left.tree, right.tree), {this} + left.Repr + right.Repr;
    }

    /** `Node::new`. */
    static method New(bytes: nat, size: nat) returns (node: Node)
      requires bytes <= size && IsPowerOfTwo(size)
      ensures node.Valid() && fresh(node.Repr) && node.tree == Buddy.New(bytes, size)
      decreases size
    {
      if bytes == 0 {
        node := new Node.Childless(0);
      } else if bytes == size {
        node := new Node.Childless(size);
      } else {
        var half := size / 2;
        var l := New(if half < bytes then half else bytes, half);
        var r := New(if half < bytes then bytes - half else 0, half);
        node := new Node.WithChildren(0, l, r);
        node.Update(size);
      }
    }

    /** `get_children`: the children are made when they are first needed. */
    method GetChildren(size: nat)
      requires Valid()
      modifies this
      ensures Valid() && fresh(Repr - old(Repr)) && old(Repr) <= Repr && left != null && right != null
      ensures max == old(max) && request == old(request)
      ensures (left.tree, right.tree) == Buddy.GetChildren(old(tree), size)
      ensures old(left) != null ==> left == old(left) && right == old(right)
    {
      if left == null {
        left := new Node.Childless(size / 2);
        right := new Node.Childless(size / 2);
        Repr := {this} + left.Repr + right.Repr + Repr;
        tree := Branch(max, request, left.tree, right.tree);
      }
    }

    method Update(size: nat)
      requires Valid() && left != null && right != null
      modifies this
      ensures Valid() && Repr == old(Repr) && left == old(left) && right == old(right)
      ensures tree == Join(left.tree, right.tree, old(request), size)
    {
      max := if left.max == size / 2 && right.max == size / 2 then size
             else if left.max < right.max then right.max else left.max;
      tree := Branch(max, request, left.tree, right.tree);
    }

    method Alloc(req: nat, size: nat) returns (result: Option<nat>)
      requires Valid() && IsPowerOfTwo(size) && Wf(tree, size) && 0 < req
      modifies Repr
      ensures Valid() && fresh(Repr - old(Repr))
      ensures match Buddy.Alloc(old(tree), req, size)
              case None => result == None && tree == old(tree)
              case Some((p, t)) => result == Some(p) && tree == t
      ensures result.Some? ==> BestFit(old(tree), size, result.value, req)
      decreases size, 2
    {
      hide Wf, IsPowerOfTwo, AllocEffect, Opens, Taken, BestFit;
      AllocWorks(tree, req, size, 0);
      if req > max { return None; }
      AllocIsBestFit(tree, req, size);
      if req > size / 2 {
        TakeWhole(tree, req, size, 0);
        assert max == size;
        max, request := 0, req;
        tree := tree.(max := 0, request := req);
        return Some(0);
      }
      result := AllocBelow(req, size);
    }

    /** The descent of `alloc` into the child with the smaller sufficient maximum. */
    method AllocBelow(req: nat, size: nat) returns (result: Option<nat>)
      requires Valid() && IsPowerOfTwo(size) && Wf(tree, size) && 0 < req <= max && req <= size / 2
      requires Buddy.Alloc(tree, req, size).Some?
      modifies Repr
      ensures Valid() && fresh(Repr - old(Repr))
      ensures result == Some(Buddy.Alloc(old(tree), req, size).value.0)
      ensures tree == Buddy.Alloc(old(tree), req, size).value.1
      decreases size, 1
    {
      hide Wf, IsPowerOfTwo, AllocEffect, Opens, Taken, Join, FreeAt, Blocks;
      PositiveIsOpen(tree, size);
      Halves(size);
      ChildrenOf(tree, size, 0);
      GetChildren(size);
      var left', right' := left, right;
      AllocWorks(left.tree, req, size / 2, 0);
      AllocWorks(right.tree, req, size / 2, 0);
      if (left.max >= req && left.max <= right.max) || right.max < req {
        assert left.max >= req;
        result := AllocIn(left, req, size);
      } else {
        assert right.max >= req;
        result := AllocIn(right, req, size);
        result := Some(result.value + size / 2);
      }
      Update(size);
    }

    /** The recursive call on one child; the other child and this node keep what they hold. */
    method AllocIn(child: Node, req: nat, size: nat) returns (result: Option<nat>)
      requires Valid() && left != null && right != null && (child == left || child == right)
      requires IsPowerOfTwo(size) && size > 1 && Wf(child.tree, size / 2) && 0 < req
      requires Buddy.Alloc(child.tree, req, size / 2).Some?
      modifies child.Repr, this`Repr, this`tree
      ensures Valid() && fresh(Repr - old(Repr)) && left == old(left) && right == old(right)
      ensures max == old(max) && request == old(request)
      ensures result == Some(Buddy.Alloc(old(child.tree), req, size / 2).value.0)
      ensures child.tree == Buddy.Alloc(old(child.tree), req, size / 2).value.1
      ensures child == left ==> right.tree == old(right.tree)
      ensures child == right ==> left.tree == old(left.tree)
      decreases size, 0
    {
      hide Wf;
      result := child.Alloc(req, size / 2);
      Repr := {this} + left.Repr + right.Repr + Repr;
      tree := Branch(max, request, left.tree, right.tree);
    }

    method Dealloc(ptr: nat, req: nat, size: nat)
      requires Valid() && 0 < req && Buddy.Dealloc(tree, ptr, req, size).Some?
      modifies Repr
      ensures Valid() && Repr == old(Repr)
      ensures Buddy.Dealloc(old(tree), ptr, req, size) == Some(tree)
      decreases Repr
    {
      if ptr == 0 && req > size / 2 {
        assert max == 0;
        assert request == req;
        max, request := size, 0;
        tree := tree.(max := size, request := 0);
        return;
      }
      assert left != null && right != null;
      if ptr < size / 2 {
        left.Dealloc(ptr, req, size / 2);
      } else {
        right.Dealloc(ptr - size / 2, req, size / 2);
      }
      tree := Branch(max, request, left.tree, right.tree);
      Update(size);
    }

    method ReserveRange(lo: nat, hi: nat, size: nat)
      requires Valid() && IsPowerOfTwo(size) && Wf(tree, size) && lo < hi <= size && FreeRange(tree, size, lo, hi)
      modifies Repr
      ensures Valid() && fresh(Repr - old(Repr)) && tree == Reserve(old(tree), lo, hi, size)
      decreases size, 2
    {
      hide Wf, IsPowerOfTwo, FreeRange, Opens, Taken, ReserveEffect, Reserve;
      if lo == 0 && hi == size {
        ReserveAll(size);
      } else {
        ReserveBelow(lo, hi, size);
      }
    }

    method ReserveAll(size: nat)
      requires Valid() && IsPowerOfTwo(size) && Wf(tree, size) && FreeRange(tree, size, 0, size)
      modifies this
      ensures Valid() && Repr == old(Repr) && tree == Reserve(old(tree), 0, size, size)
    {
      hide Wf, FreeRange;
      ReserveWorks(tree, 0, size, size, 0);
      assert max == size;
      max := 0;
      tree := tree.(max := 0);
    }

    method ReserveBelow(lo: nat, hi: nat, size: nat)
      requires Valid() && IsPowerOfTwo(size) && Wf(tree, size) && lo < hi <= size && FreeRange(tree, size, lo, hi)
      requires !(lo == 0 && hi == size)
      modifies Repr
      ensures Valid() && fresh(Repr - old(Repr)) && tree == Reserve(old(tree), lo, hi, size)
      decreases size, 1
    {
      hide Wf, IsPowerOfTwo, FreeRange, Opens, Taken, Join, Reserve;
      var half := size / 2;
      LoIsOpen(tree, size, lo, hi);
      Halves(size);
      ReserveSplits(tree, lo, hi, size);
      ChildrenOf(tree, size, 0);
      GetChildren(size);
      FreeHalves(old(tree), left.tree, right.tree, lo, hi, size);
      if lo < half {
        ReserveIn(left, lo, if hi < half then hi else half, size);
      }
      if hi > half {
        ReserveIn(right, (if lo < half then half else lo) - half, hi - half, size);
      }
      Update(size);
    }

    method ReserveIn(child: Node, lo: nat, hi: nat, size: nat)
      requires Valid() && left != null && right != null && (child == left || child == right)
      requires IsPowerOfTwo(size / 2) && size > 1 && Wf(child.tree, size / 2)
      requires lo < hi <= size / 2 && FreeRange(child.tree, size / 2, lo, hi)
      modifies child.Repr, this`Repr, this`tree
      ensures Valid() && fresh(Repr - old(Repr)) && left == old(left) && right == old(right)
      ensures max == old(max) && request == old(request)
      ensures child.tree == Reserve(old(child.tree), lo, hi, size / 2)
      ensures child == left ==> right.tree == old(right.tree)
      ensures child == right ==> left.tree == old(left.tree)
      decreases size, 0
    {
      hide Wf, IsPowerOfTwo, FreeRange, FreeAt, Blocks, Reserve, Opens, Taken;
      child.ReserveRange(lo, hi, size / 2);
      Repr := {this} + left.Repr + right.Repr + Repr;
      tree := Branch(max, request, left.tree, right.tree);
    }

    /** `stats`: bytes asked for by live callers, and bytes reported as free. */
    method Stats() returns (alloc: nat, free: nat)
      requires Valid()
      ensures alloc == StatsAlloc(tree) && free == StatsFree(tree)
      decreases Repr
    {
      if request != 0 {
        return request, 0;
      }
      if left == null {
        return 0, max;
      }
      var leftAlloc, leftFree := left.Stats();
      var rightAlloc, rightFree := right.Stats();
      return leftAlloc + rightAlloc, leftFree + rightFree;
    }
  }

  /** The allocator over `start..end`; addresses in its contract are absolute. */
  class BuddyAllocator {
    var root: Node
    var rootNodeSize: nat
    var start: nat
    var end: nat

    ghost predicate Valid()
      reads this, root, root.Repr
    {
      && root.Valid() && this !in root.Repr
      && IsPowerOfTwo(rootNodeSize) && start < end <= start + rootNodeSize
      && Wf(root.tree, rootNodeSize)
      && forall a :: Usable(root.tree, start, rootNodeSize, a) ==> start <= a < end
    }

    ghost function Live(): set<Block>
      reads this, root, root.Repr
    {
      Blocks(root.tree, start, rootNodeSize)
    }

    /** Byte `a` is not handed out. */
    ghost predicate IsFree(a: int)
      reads this, root, root.Repr
    {
      FreeFrom(root.tree, start, rootNodeSize, a)
    }

    /** Byte `a` is free or in a live block: what no reservation took. */
    ghost predicate IsUsable(a: int)
      reads this, root, root.Repr
    {
      Usable(root.tree, start, rootNodeSize, a)
    }

    /** No reserved node has children that `stats` would still count. */
    ghost predicate HidesNothing()
      reads this, root, root.Repr
    {
      Hidden(root.tree, rootNodeSize) == 0
    }

    ghost predicate Unallocated()
      reads this, root, root.Repr
    {
      Fresh(root.tree, rootNodeSize)
    }

    /** Reserving `lo..hi` takes no node whole that has children: what makes the reservation harmless to `stats`. */
    ghost predicate TakesOnlyChildless(lo: nat, hi: nat)
      requires Valid() && start <= lo < hi <= end
      reads this, root, root.Repr
    {
      CoversChildless(root.tree, lo - start, hi - start, rootNodeSize)
    }

    constructor (start: nat, end: nat)
      requires start < end
      ensures Valid() && fresh(root.Repr) && root in root.Repr && (this as object) !in root.Repr
      ensures this.start == start && this.end == end && rootNodeSize == NextPowerOfTwo(end - start)
      ensures Live() == {} && Unallocated() && HidesNothing()
      ensures forall a :: IsFree(a) <==> start <= a < end
      ensures forall a :: IsUsable(a) <==> start <= a < end
    {
      hide Wf, Hidden, Fresh, IsPowerOfTwo, NextPowerOfTwo, FreeFrom, Usable, Blocks, Node.Valid, New;
      var bytes := end - start;
      NextPowerShape(bytes);
      var size: nat := NextPowerOfTwo(bytes);
      var node := Node.New(bytes, size);
      root, rootNodeSize, this.start, this.end := node, size, start, end;
      new;
      NewOutcome(bytes, size, start);
    }

    /** `None` exactly when no aligned free block is large enough, and then nothing has changed. */
    method Alloc(layoutSize: nat, layoutAlign: nat) returns (result: Option<nat>)
      requires Valid() && 0 < layoutAlign
      modifies root.Repr
      ensures Valid() && root == old(root) && root in root.Repr && fresh(root.Repr - old(root.Repr))
      ensures start == old(start) && end == old(end) && rootNodeSize == old(rootNodeSize)
      ensures var req := Max(layoutSize, layoutAlign);
              && (result.None? <==>
                    !exists p: nat, b: nat :: FreeBlock(old(root.tree), rootNodeSize, p, b) && req <= b)
              && (result.None? ==> root.tree == old(root.tree) && Live() == old(Live()))
              && (result.Some? ==> Handed(result.value, req, old(Live()), Live()))
              && (result.Some? ==> forall a :: IsFree(a) <==> old(IsFree(a)) && !Block(result.value, req).Covers(a))
              && (result.Some? ==> start <= result.value && Block(result.value, req).End() <= end
                                   && (result.value - start) % NextPowerOfTwo(req) == 0
                                   && BestFit(old(root.tree), rootNodeSize, result.value - start, req))
      ensures forall a :: IsUsable(a) <==> old(IsUsable(a))
      ensures HidesNothing() <==> old(HidesNothing())
    {
      hide Wf, Blocks, FreeAt, FreeFrom, Usable, Hidden, IsPowerOfTwo, FreeBlock, NextPowerOfTwo, AllocEffect, Buddy.Alloc;
      hide BestFit;
      var req := Max(layoutSize, layoutAlign);
      ghost var before := root.tree;
      AllocOutcome(before, req, rootNodeSize, start);
      var unoffset := root.Alloc(req, rootNodeSize);
      if unoffset.None? { return None; }
      var ptr := start + unoffset.value;
      HandedOut(before, root.tree, req, rootNodeSize, start, unoffset.value);
      BlockIsUsable(root.tree, rootNodeSize, start, Block(ptr, req));
      NextPowerShape(req);
      assert Usable(root.tree, start, rootNodeSize, ptr);
      assert Usable(root.tree, start, rootNodeSize, Block(ptr, req).End() - 1);
      assert ptr >= start;
      assert ptr + req <= end;
      return Some(ptr);
    }

    /** The caller gives back a live block with the layout it was allocated with. */
    method Dealloc(ptr: nat, layoutSize: nat, layoutAlign: nat)
      requires Valid() && 0 < layoutAlign && Block(ptr, Max(layoutSize, layoutAlign)) in Live()
      modifies root.Repr
      ensures Valid() && root == old(root) && root.Repr == old(root.Repr)
      ensures start == old(start) && end == old(end) && rootNodeSize == old(rootNodeSize)
      ensures var b := Block(ptr, Max(layoutSize, layoutAlign));
              && Live() == old(Live()) - {b}
              && forall a :: IsFree(a) <==> old(IsFree(a)) || b.Covers(a)
      ensures forall a :: IsUsable(a) <==> old(IsUsable(a))
      ensures HidesNothing() <==> old(HidesNothing())
    {
      hide Wf, Blocks, FreeAt, FreeFrom, Usable, Hidden, IsPowerOfTwo, NextPowerOfTwo, DeallocEffect, Buddy.Dealloc;
      ghost var before := root.tree;
      var req := Max(layoutSize, layoutAlign);
      LiveIsInside(before, rootNodeSize, start, Block(ptr, req));
      DeallocOutcome(before, ptr - start, req, rootNodeSize, start);
      root.Dealloc(ptr - start, req, rootNodeSize);
      DeallocFrees(before, root.tree, req, rootNodeSize, start, ptr - start);
    }

    method ReserveRange(lo: nat, hi: nat)
      requires Valid() && start <= lo < hi <= end && forall a :: lo <= a < hi ==> IsFree(a)
      modifies root.Repr
      ensures Valid() && root == old(root) && fresh(root.Repr - old(root.Repr))
      ensures start == old(start) && end == old(end) && rootNodeSize == old(rootNodeSize)
      ensures Live() == old(Live())
      ensures forall a :: IsFree(a) <==> old(IsFree(a)) && !(lo <= a < hi)
      ensures forall a :: IsUsable(a) <==> old(IsUsable(a)) && !(lo <= a < hi)
      ensures HidesNothing() <==> old(HidesNothing()) && old(TakesOnlyChildless(lo, hi))
      ensures old(Unallocated()) ==> Unallocated() && HidesNothing()
    {
      hide Wf, Blocks, FreeAt, FreeFrom, Usable, Hidden, IsPowerOfTwo, Fresh, Reserve, CoversChildless;
      ghost var before := root.tree;
      forall a | lo <= a < hi ensures FreeFrom(before, start, rootNodeSize, a) { assert IsFree(a); }
      RangeFrom(before, lo, hi, rootNodeSize, start);
      ReserveOutcome(before, lo - start, hi - start, rootNodeSize, start);
      root.ReserveRange(lo - start, hi - start, rootNodeSize);
    }

    /** The sum of live requests, and the number of free bytes unless a late reservation hid some. */
    method Stats() returns (alloc: nat, free: nat)
      requires Valid()
      ensures alloc == SumOfRequests(Live())
      ensures HidesNothing() <==> free == FreeCount(root.tree, rootNodeSize, rootNodeSize)
    {
      alloc, free := root.Stats();
      StatsAllocIsSum(root.tree, start, rootNodeSize);
      StatsFreeIsCount(root.tree, rootNodeSize);
    }
  }

  lemma AllocOutcome(t: Tree, req: nat, size: nat, off: nat)
    requires IsPowerOfTwo(size) && Wf(t, size) && 0 < req
    ensures Alloc(t, req, size).None? <==> !exists p: nat, b: nat :: FreeBlock(t, size, p, b) && req <= b
    ensures Alloc(t, req, size).Some? ==>
              var (p, t') := Alloc(t, req, size).value;
              && Wf(t', size) && AllocEffect(t, t', req, size, off, p)
              && (Hidden(t', size) == 0 <==> Hidden(t, size) == 0)
              && (forall a :: Usable(t', off, size, a) <==> Usable(t, off, size, a))
              && (forall a :: FreeFrom(t', off, size, a) <==> FreeFrom(t, off, size, a) && !Block(off + p, req).Covers(a))
              && p % NextPowerOfTwo(req) == 0
  {
    hide FreeAt, Blocks, Usable, FreeFrom, Wf, Hidden, FreeRange, Alloc, NextPowerOfTwo, IsPowerOfTwo;
    AllocSucceedsIff(t, req, size);
    AllocWorks(t, req, size, off);
    if Alloc(t, req, size).Some? {
      var (p, t') := Alloc(t, req, size).value;
      AllocHidesNothing(t, req, size);
      AllocKeepsUsable(t, t', req, size, off, p);
    }
  }

  lemma BlockIsUsable(t: Tree, size: nat, off: nat, b: Block)
    requires b in Blocks(t, off, size)
    ensures forall a :: b.Covers(a) ==> Usable(t, off, size, a)
  {
  }

  lemma LiveIsInside(t: Tree, size: nat, off: nat, b: Block)
    requires IsPowerOfTwo(size) && Wf(t, size) && b in Blocks(t, off, size)
    ensures off <= b.addr && b.End() <= off + size
  {
    BlocksInRange(t, off, size, b);
  }

  lemma DeallocOutcome(t: Tree, ptr: nat, req: nat, size: nat, off: nat)
    requires IsPowerOfTwo(size) && Wf(t, size) && 0 < req && Block(off + ptr, req) in Blocks(t, off, size)
    ensures Dealloc(t, ptr, req, size).Some? && DeallocEffect(t, Dealloc(t, ptr, req, size).value, req, size, off, ptr)
    ensures Wf(Dealloc(t, ptr, req, size).value, size)
    ensures Hidden(Dealloc(t, ptr, req, size).value, size) == Hidden(t, size)
  {
    DeallocWorks(t, ptr, req, size, off);
    DeallocHidesNothing(t, ptr, req, size);
  }

  lemma DeallocFrees(t: Tree, t': Tree, req: nat, size: nat, off: nat, p: nat)
    requires DeallocEffect(t, t', req, size, off, p)
    ensures Blocks(t', off, size) == Blocks(t, off, size) - {Block(off + p, req)}
    ensures forall a :: FreeFrom(t', off, size, a) <==> FreeFrom(t, off, size, a) || Block(off + p, req).Covers(a)
    ensures forall a :: Usable(t', off, size, a) <==> Usable(t, off, size, a)
  {
    hide FreeAt, Blocks, NextPowerOfTwo;
    var b := Block(off + p, req);
    AllocKeepsUsable(t', t, req, size, off, p);
    forall a | b.Covers(a) ensures FreeFrom(t', off, size, a) {
      assert FreeAt(t', size, a - off);
    }
  }

  lemma RangeFrom(t: Tree, lo: nat, hi: nat, size: nat, off: nat)
    requires forall a :: lo <= a < hi ==> FreeFrom(t, off, size, a)
    ensures FreeRange(t, size, lo - off, hi - off)
  {
    forall a | lo - off <= a < hi - off ensures FreeAt(t, size, a) { assert FreeFrom(t, off, size, a + off); }
  }

  lemma ReserveOutcome(t: Tree, lo: nat, hi: nat, size: nat, off: nat)
    requires IsPowerOfTwo(size) && Wf(t, size) && lo < hi <= size && FreeRange(t, size, lo, hi)
    ensures var t' := Reserve(t, lo, hi, size);
            && Wf(t', size) && Blocks(t', off, size) == Blocks(t, off, size)
            && (forall a :: FreeFrom(t', off, size, a) <==> FreeFrom(t, off, size, a) && !(off + lo <= a < off + hi))
            && (forall a :: Usable(t', off, size, a) <==> Usable(t, off, size, a) && !(off + lo <= a < off + hi))
            && (Hidden(t', size) == 0 <==> Hidden(t, size) == 0 && CoversChildless(t, lo, hi, size))
            && (Fresh(t, size) ==> Fresh(t', size) && Hidden(t', size) == 0)
  {
    hide Blocks, Reserve, Hidden, CoversChildless;
    ReserveHidesIff(t, lo, hi, size);
    var t' := Reserve(t, lo, hi, size);
    ReserveWorks(t, lo, hi, size, off);
    if Fresh(t, size) {
      ReserveKeepsFresh(t, lo, hi, size);
      FreshHidesNothing(t', size);
    }
    forall a | off + lo <= a < off + hi ensures !Usable(t', off, size, a) {
      forall b <- Blocks(t, off, size) ensures !b.Covers(a) {
        assert FreeAt(t, size, a - off);
        if b.Covers(a) { BlockNotFree(t, off, size, b, a); }
      }
    }
  }

  lemma NewOutcome(bytes: nat, size: nat, start: nat)
    requires IsPowerOfTwo(size) && bytes <= size
    ensures var t := New(bytes, size);
            && Wf(t, size) && Blocks(t, start, size) == {} && Fresh(t, size) && Hidden(t, size) == 0
            && (forall a :: FreeFrom(t, start, size, a) <==> start <= a < start + bytes)
            && (forall a :: Usable(t, start, size, a) <==> start <= a < start + bytes)
  {
    hide Wf, Hidden, Fresh, IsPowerOfTwo, FreeAt, New;
    NewWorks(bytes, size, start);
    NewIsFresh(bytes, size);
    FreshHidesNothing(New(bytes, size), size);
  }

  /** A new block that no other live block touches. */
  ghost predicate Handed(p: nat, req: nat, before: set<Block>, after: set<Block>) {
    && after == before + {Block(p, req)} && Block(p, req) !in before
    && forall b <- before :: b.End() <= p || Block(p, req).End() <= b.addr
  }

  lemma HandedOut(t: Tree, t': Tree, req: nat, size: nat, off: nat, p: nat)
    requires IsPowerOfTwo(size) && Wf(t, size) && 0 < req && AllocEffect(t, t', req, size, off, p)
    ensures Handed(off + p, req, Blocks(t, off, size), Blocks(t', off, size))
  {
    hide Blocks, FreeAt;
    var b := Block(off + p, req);
    assert b in Blocks(t', off, size);
    if b in Blocks(t, off, size) {
      assert FreeAt(t, size, p);
      BlockNotFree(t, off, size, b, off + p);
    }
    forall c <- Blocks(t, off, size) ensures c.End() <= b.addr || b.End() <= c.addr {
      assert c in Blocks(t', off, size);
      BlocksApart(t', off, size, b, c);
    }
  }
}
