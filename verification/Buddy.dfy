/** The buddy tree as a value, the operations on it, and what they do to the set of free bytes. */
module Buddy {
  import opened Arithmetic
  import opened Options
  import opened Powers

  /** A node of the tree; `Leaf` is a node whose children do not exist yet. */
  datatype Tree =
    | Leaf(max: nat, request: nat)
    | Branch(max: nat, request: nat, left: Tree, right: Tree)

  /** A live allocation: its address and the size that was asked for. */
  datatype Block = Block(addr: nat, req: nat) {
    function End(): nat { addr + NextPowerOfTwo(req) }

    predicate Covers(a: int) { addr <= a < End() }
  }

  // ---------------------------------------------------------------- operations

  function GetChildren(t: Tree, size: nat): (Tree, Tree) {
    match t
    case Leaf(_, _) => (Leaf(size / 2, 0), Leaf(size / 2, 0))
    case Branch(_, _, l, r) => (l, r)
  }

  /** `update`: the maximum of a node whose children have maxima `l` and `r`. */
  function Combine(l: nat, r: nat, size: nat): nat {
    if l == size / 2 && r == size / 2 then size else if l < r then r else l
  }

  function Join(l: Tree, r: Tree, request: nat, size: nat): Tree {
    Branch(Combine(l.max, r.max, size), request, l, r)
  }

  function New(bytes: nat, size: nat): Tree
    requires bytes <= size && IsPowerOfTwo(size)
    decreases size
  {
    if bytes == 0 then Leaf(0, 0)
    else if bytes == size then Leaf(size, 0)
    else
      var half := size / 2;
      Join(New(if half < bytes then half else bytes, half), New(if half < bytes then bytes - half else 0, half), 0, size)
  }

  function Alloc(t: Tree, req: nat, size: nat): Option<(nat, Tree)>
    requires IsPowerOfTwo(size) && req > 0
    decreases size
  {
    if req > t.max then None
    else if req > size / 2 then Some((0, t.(max := 0, request := req)))
    else
      var (l, r) := GetChildren(t, size);
      if (l.max >= req && l.max <= r.max) || r.max < req then
        match Alloc(l, req, size / 2)
        case None => None
        case Some((p, l')) => Some((p, Join(l', r, t.request, size)))
      else
        match Alloc(r, req, size / 2)
        case None => None
        case Some((p, r')) => Some((p + size / 2, Join(l, r', t.request, size)))
  }

  /** `None` where the source stops on an assertion or on a missing child. */
  function Dealloc(t: Tree, ptr: nat, req: nat, size: nat): Option<Tree>
    requires req > 0
    decreases t
  {
    if ptr == 0 && req > size / 2 then
      if t.max == 0 && t.request == req then Some(t.(max := size, request := 0)) else None
    else
      match t
      case Leaf(_, _) => None
      case Branch(_, request, l, r) =>
        if ptr < size / 2 then
          match Dealloc(l, ptr, req, size / 2)
          case None => None
          case Some(l') => Some(Join(l', r, request, size))
        else
          match Dealloc(r, ptr - size / 2, req, size / 2)
          case None => None
          case Some(r') => Some(Join(l, r', request, size))
  }

  function Reserve(t: Tree, lo: nat, hi: nat, size: nat): Tree
    requires IsPowerOfTwo(size) && lo < hi <= size
    decreases size
  {
    if lo == 0 && hi == size then t.(max := 0)
    else
      var half := size / 2;
      var (l, r) := GetChildren(t, size);
      Join(if lo < half then Reserve(l, lo, if hi < half then hi else half, half) else l,
           if hi > half then Reserve(r, (if lo < half then half else lo) - half, hi - half, half) else r,
           t.request, size)
  }

  function StatsAlloc(t: Tree): nat {
    if t.request != 0 then t.request
    else match t
      case Leaf(_, _) => 0
      case Branch(_, _, l, r) => StatsAlloc(l) + StatsAlloc(r)
  }

  function StatsFree(t: Tree): nat {
    if t.request != 0 then 0
    else match t
      case Leaf(max, _) => max
      case Branch(_, _, l, r) => StatsFree(l) + StatsFree(r)
  }

  // ---------------------------------------------------------------- well-formed trees

  /** The node was handed out or reserved as a whole; whatever is below it counts no more. */
  predicate Taken(t: Tree, size: nat) {
    t.max == 0 && (t.Leaf? || (t.left.max == size / 2 && t.right.max == size / 2))
  }

  ghost predicate Wf(t: Tree, size: nat)
    decreases t
  {
    && (t.Branch? ==> size > 1 && Wf(t.left, size / 2) && Wf(t.right, size / 2))
    && (t.request != 0 ==> Taken(t, size) && size / 2 < t.request <= size)
    && (if t.Leaf? then t.max == size || t.max == 0
        else Taken(t, size) || t.max == Combine(t.left.max, t.right.max, size))
  }

  /** Byte `a` is free. */
  predicate FreeAt(t: Tree, size: nat, a: int)
    decreases t
  {
    && 0 <= a < size && !Taken(t, size)
    && (t.Branch? ==> if a < size / 2 then FreeAt(t.left, size / 2, a) else FreeAt(t.right, size / 2, a - size / 2))
  }

  ghost predicate FreeRange(t: Tree, size: nat, lo: int, hi: int) {
    forall a :: lo <= a < hi ==> FreeAt(t, size, a)
  }

  /** The live allocations below `t`, whose first byte is at `off`. */
  ghost function Blocks(t: Tree, off: nat, size: nat): set<Block>
    decreases t
  {
    if t.request != 0 then {Block(off, t.request)}
    else if t.Leaf? || Taken(t, size) then {}
    else Blocks(t.left, off, size / 2) + Blocks(t.right, off + size / 2, size / 2)
  }

  // ---------------------------------------------------------------- the cached maximum

  lemma Halves(size: nat)
    requires IsPowerOfTwo(size) && size > 1
    ensures IsPowerOfTwo(size / 2) && size == size / 2 + size / 2 && size / 2 > 0
  {
  }

  lemma {:induction false} MaxIsPower(t: Tree, size: nat)
    requires IsPowerOfTwo(size) && Wf(t, size)
    ensures t.max == 0 || (IsPowerOfTwo(t.max) && t.max <= size)
    ensures t.max == size ==> FreeRange(t, size, 0, size)
    ensures t.max == 0 ==> forall a :: !FreeAt(t, size, a)
    decreases t
  {
    if t.Branch? {
      Halves(size);
      MaxIsPower(t.left, size / 2);
      MaxIsPower(t.right, size / 2);
    }
  }

  /** Every aligned power-of-two block of free bytes is at most as large as the cached maximum. */
  lemma {:induction false} MaxBoundsFreeBlocks(t: Tree, size: nat, addr: nat, b: nat)
    requires IsPowerOfTwo(size) && Wf(t, size) && IsPowerOfTwo(b) && addr % b == 0 && addr + b <= size
    requires FreeRange(t, size, addr, addr + b)
    ensures b <= t.max
    decreases t
  {
    hide Wf, Combine, IsPowerOfTwo;
    PowerIsPositive(b);
    assert FreeAt(t, size, addr);
    MaxOfOpen(t, size);
    if t.Branch? {
      var half := size / 2;
      PowersDivide(b, size);
      PowersDivide(size, b);
      if b == size {
        assert FreeRange(t.left, half, 0, half) && FreeRange(t.right, half, 0, half) by {
          forall a | 0 <= a < half ensures FreeAt(t.left, half, a) && FreeAt(t.right, half, a) {
            assert FreeAt(t, size, a) && FreeAt(t, size, a + half);
          }
        }
        MaxBoundsFreeBlocks(t.left, half, 0, half);
        MaxBoundsFreeBlocks(t.right, half, 0, half);
      } else {
        PowersDivide(b, half);
        AlignedFits(addr, b, half);
        if addr < half {
          assert FreeRange(t.left, half, addr, addr + b) by {
            forall a | addr <= a < addr + b ensures FreeAt(t.left, half, a) { assert FreeAt(t, size, a); }
          }
          MaxBoundsFreeBlocks(t.left, half, addr, b);
        } else {
          assert FreeRange(t.right, half, addr - half, addr - half + b) by {
            forall a | addr - half <= a < addr - half + b ensures FreeAt(t.right, half, a) {
              assert FreeAt(t, size, a + half);
            }
          }
          MaxBoundsFreeBlocks(t.right, half, addr - half, b);
        }
      }
    }
  }

  /** The maximum of a node that is not taken bounds those of its children, and is full if they are. */
  lemma MaxOfOpen(t: Tree, size: nat)
    requires IsPowerOfTwo(size) && Wf(t, size) && !Taken(t, size)
    ensures t.Leaf? ==> t.max == size
    ensures t.Branch? ==>
              && size > 1 && Wf(t.left, size / 2) && Wf(t.right, size / 2)
              && IsPowerOfTwo(size / 2) && size == size / 2 + size / 2
              && t.left.max <= t.max && t.right.max <= t.max
              && (t.left.max >= size / 2 && t.right.max >= size / 2 ==> t.max == size)
  {
    if t.Branch? {
      Halves(size);
      MaxIsPower(t.left, size / 2);
      MaxIsPower(t.right, size / 2);
    }
  }

  // ---------------------------------------------------------------- what the operations do

  /** The free bytes of `t'` are those of `t` outside `lo..hi`. */
  ghost predicate Removes(t: Tree, t': Tree, size: nat, lo: int, hi: int) {
    forall a :: FreeAt(t', size, a) <==> FreeAt(t, size, a) && !(lo <= a < hi)
  }

  /** A block fits at `p`: aligned to its rounded-up size, inside the tree, and free. */
  ghost predicate FitsAt(t: Tree, size: nat, p: nat, req: nat) {
    var n := NextPowerOfTwo(req);
    n > 0 && p % n == 0 && p + n <= size && FreeRange(t, size, p, p + n)
  }

  /** `alloc` hands out a free aligned block and takes exactly its bytes from the free set. */
  lemma {:induction false} AllocWorks(t: Tree, req: nat, size: nat, off: nat)
    requires IsPowerOfTwo(size) && Wf(t, size) && 0 < req
    ensures Alloc(t, req, size).Some? <==> req <= t.max
    ensures Alloc(t, req, size).Some? ==> AllocEffect(t, Alloc(t, req, size).value.1, req, size, off, Alloc(t, req, size).value.0)
    decreases size
  {
    hide FreeAt, Blocks, Wf, AllocEffect, IsPowerOfTwo, Opens, Join, Taken, FreeRange;
    MaxIsPower(t, size);
    if req <= t.max {
      if req > size / 2 {
        TakeWhole(t, req, size, off);
      } else {
        PositiveIsOpen(t, size);
        Halves(size);
        ChildrenOf(t, size, off);
        var (l, r) := GetChildren(t, size);
        if (l.max >= req && l.max <= r.max) || r.max < req {
          AllocWorks(l, req, size / 2, off);
          var (p, l') := Alloc(l, req, size / 2).value;
          AllocLeft(t, l, r, l', req, size, off, p);
        } else {
          AllocWorks(r, req, size / 2, off + size / 2);
          var (p, r') := Alloc(r, req, size / 2).value;
          AllocRight(t, l, r, r', req, size, off, p);
        }
      }
    }
  }

  /** What allocating `req` bytes at `p` means. */
  ghost predicate AllocEffect(t: Tree, t': Tree, req: nat, size: nat, off: nat, p: nat) {
    && FitsAt(t, size, p, req) && Wf(t', size)
    && Removes(t, t', size, p, p + NextPowerOfTwo(req))
    && Blocks(t', off, size) == Blocks(t, off, size) + {Block(off + p, req)}
  }

  /** `t` is an open node with these children. */
  ghost predicate Opens(t: Tree, l: Tree, r: Tree, size: nat, off: nat) {
    && (forall a :: FreeAt(t, size, a) <==>
                    if a < size / 2 then FreeAt(l, size / 2, a) else FreeAt(r, size / 2, a - size / 2))
    && Blocks(t, off, size) == Blocks(l, off, size / 2) + Blocks(r, off + size / 2, size / 2)
  }

  lemma ChildrenOf(t: Tree, size: nat, off: nat)
    requires IsPowerOfTwo(size) && size > 1 && Wf(t, size) && !Taken(t, size)
    ensures var (l, r) := GetChildren(t, size);
            && Wf(l, size / 2) && Wf(r, size / 2) && t.max == Combine(l.max, r.max, size) && t.request == 0
            && Opens(t, l, r, size, off)
  {
    if t.Leaf? {
      LeafChildren(t, size, off);
    } else {
      OpenIsJoin(t, size);
      JoinOf(t.left, t.right, size, off);
    }
  }

  lemma OpenIsJoin(t: Tree, size: nat)
    requires IsPowerOfTwo(size) && size > 1 && Wf(t, size) && !Taken(t, size) && t.Branch?
    ensures t == Join(t.left, t.right, 0, size) && Wf(t.left, size / 2) && Wf(t.right, size / 2)
  {
  }

  lemma PositiveIsOpen(t: Tree, size: nat)
    requires Wf(t, size) && IsPowerOfTwo(size) && t.max > 0
    ensures !Taken(t, size) && t.request == 0 && (size / 2 > 0 ==> size > 1)
  {
  }

  lemma OpenHasNoRequest(t: Tree, size: nat)
    requires Wf(t, size) && !Taken(t, size)
    ensures t.request == 0
  {
  }

  lemma LeafChildren(t: Tree, size: nat, off: nat)
    requires IsPowerOfTwo(size) && size > 1 && Wf(t, size) && !Taken(t, size) && t.Leaf?
    ensures t.max == size && t.request == 0 && Wf(Leaf(size / 2, 0), size / 2)
    ensures Opens(t, Leaf(size / 2, 0), Leaf(size / 2, 0), size, off)
  {
    Halves(size);
  }

  lemma JoinOf(l: Tree, r: Tree, size: nat, off: nat)
    requires IsPowerOfTwo(size) && size > 1 && Wf(l, size / 2) && Wf(r, size / 2)
    ensures Wf(Join(l, r, 0, size), size) && Opens(Join(l, r, 0, size), l, r, size, off)
    ensures !Taken(Join(l, r, 0, size), size)
  {
    JoinIsOpen(l, r, size);
    JoinBlocks(l, r, size, off);
    forall a
      ensures FreeAt(Join(l, r, 0, size), size, a) == if a < size / 2 then FreeAt(l, size / 2, a) else FreeAt(r, size / 2, a - size / 2)
    {
      JoinFree(l, r, size, a);
    }
  }

  lemma JoinIsOpen(l: Tree, r: Tree, size: nat)
    requires IsPowerOfTwo(size) && size > 1 && Wf(l, size / 2) && Wf(r, size / 2)
    ensures !Taken(Join(l, r, 0, size), size) && Wf(Join(l, r, 0, size), size)
  {
    Halves(size);
  }

  lemma JoinBlocks(l: Tree, r: Tree, size: nat, off: nat)
    requires !Taken(Join(l, r, 0, size), size)
    ensures Blocks(Join(l, r, 0, size), off, size) == Blocks(l, off, size / 2) + Blocks(r, off + size / 2, size / 2)
  {
  }

  lemma JoinFree(l: Tree, r: Tree, size: nat, a: int)
    requires IsPowerOfTwo(size) && size > 1 && !Taken(Join(l, r, 0, size), size)
    ensures FreeAt(Join(l, r, 0, size), size, a) == if a < size / 2 then FreeAt(l, size / 2, a) else FreeAt(r, size / 2, a - size / 2)
  {
    Halves(size);
  }

  lemma AllocLeft(t: Tree, l: Tree, r: Tree, l': Tree, req: nat, size: nat, off: nat, p: nat)
    requires IsPowerOfTwo(size) && size > 1 && 0 < req && Wf(r, size / 2) && Opens(t, l, r, size, off)
    requires AllocEffect(l, l', req, size / 2, off, p)
    ensures AllocEffect(t, Join(l', r, 0, size), req, size, off, p)
  {
    hide FreeAt, Blocks, Wf, Join;
    Halves(size);
    JoinOf(l', r, size, off);
    var n := NextPowerOfTwo(req);
    forall a | p <= a < p + n ensures FreeAt(t, size, a) { assert FreeAt(l, size / 2, a); }
  }

  lemma AllocRight(t: Tree, l: Tree, r: Tree, r': Tree, req: nat, size: nat, off: nat, p: nat)
    requires IsPowerOfTwo(size) && size > 1 && 0 < req && Wf(l, size / 2) && Opens(t, l, r, size, off)
    requires AllocEffect(r, r', req, size / 2, off + size / 2, p)
    ensures AllocEffect(t, Join(l, r', 0, size), req, size, off, p + size / 2)
  {
    hide FreeAt, Blocks, Wf, Join;
    Halves(size);
    JoinOf(l, r', size, off);
    NextPowerShape(req);
    var n := NextPowerOfTwo(req);
    PowersDivide(n, size / 2);
    PowersDivide(size / 2, n);
    MultiplesAdd(p, size / 2, n);
    forall a | p + size / 2 <= a < p + size / 2 + n ensures FreeAt(t, size, a) { assert FreeAt(r, size / 2, a - size / 2); }
  }

  lemma TakeWhole(t: Tree, req: nat, size: nat, off: nat)
    requires IsPowerOfTwo(size) && Wf(t, size) && size / 2 < req <= t.max
    ensures t.max == size && t.request == 0
    ensures AllocEffect(t, t.(max := 0, request := req), req, size, off, 0)
  {
    var t' := t.(max := 0, request := req);
    MaxIsPower(t, size);
    PowersDivide(t.max, size);
    NextPowerIs(req, size);
    FullHasNoBlocks(t, off, size);
    MaxIsPower(t', size);
  }

  lemma {:induction false} FullHasNoBlocks(t: Tree, off: nat, size: nat)
    requires IsPowerOfTwo(size) && Wf(t, size) && t.max == size
    ensures t.request == 0 && Blocks(t, off, size) == {}
    ensures t.Branch? ==> t.left.max == size / 2 && t.right.max == size / 2
    decreases t
  {
    if t.Branch? {
      FullChildren(t, size);
      FullHasNoBlocks(t.left, off, size / 2);
      FullHasNoBlocks(t.right, off + size / 2, size / 2);
    }
  }

  lemma FullChildren(t: Tree, size: nat)
    requires IsPowerOfTwo(size) && Wf(t, size) && t.max == size && t.Branch?
    ensures t.left.max == size / 2 && t.right.max == size / 2 && IsPowerOfTwo(size / 2)
  {
    Halves(size);
    MaxIsPower(t.left, size / 2);
    MaxIsPower(t.right, size / 2);
  }

  /** Where a block is recorded: at the node itself, or below one of its children. */
  lemma BlockBelow(t: Tree, off: nat, size: nat, b: Block)
    requires IsPowerOfTwo(size) && Wf(t, size) && b in Blocks(t, off, size)
    ensures if t.request != 0 then b == Block(off, t.request) && size / 2 < b.req <= size
            else
              && t.Branch? && !Taken(t, size) && size > 1 && IsPowerOfTwo(size / 2) && size == size / 2 + size / 2
              && Wf(t.left, size / 2) && Wf(t.right, size / 2)
              && (b in Blocks(t.left, off, size / 2) || b in Blocks(t.right, off + size / 2, size / 2))
  {
    if t.request == 0 { Halves(size); }
  }

  lemma {:induction false} BlocksInRange(t: Tree, off: nat, size: nat, b: Block)
    requires IsPowerOfTwo(size) && Wf(t, size) && b in Blocks(t, off, size)
    ensures 0 < b.req <= size && off <= b.addr && b.End() <= off + size
    decreases t
  {
    hide Wf, Blocks, Taken, NextPowerOfTwo, IsPowerOfTwo;
    BlockBelow(t, off, size, b);
    if t.request != 0 {
      NextPowerIs(b.req, size);
    } else if b in Blocks(t.left, off, size / 2) {
      BlocksInRange(t.left, off, size / 2, b);
    } else {
      BlocksInRange(t.right, off + size / 2, size / 2, b);
    }
  }

  /** `dealloc` gets past its assertions exactly for a live block, and undoes its allocation. */
  lemma {:induction false} DeallocWorks(t: Tree, ptr: nat, req: nat, size: nat, off: nat)
    requires IsPowerOfTwo(size) && Wf(t, size) && 0 < req
    ensures Dealloc(t, ptr, req, size).Some? <==> Block(off + ptr, req) in Blocks(t, off, size)
    ensures Dealloc(t, ptr, req, size).Some? ==> DeallocEffect(t, Dealloc(t, ptr, req, size).value, req, size, off, ptr)
    decreases t
  {
    hide FreeAt, AllocEffect, DeallocEffect, Taken, Join, Wf, Blocks, NextPowerOfTwo, IsPowerOfTwo;
    if ptr == 0 && req > size / 2 {
      DeallocWhole(t, req, size, off);
    } else if t.Leaf? {
      TakenBlocks(t, size, off);
    } else {
      var half := size / 2;
      WfChildren(t, size);
      Halves(size);
      BranchBlocks(t, ptr, req, size, off);
      if ptr < half {
        DeallocWorks(t.left, ptr, req, half, off);
        if Dealloc(t.left, ptr, req, half).Some? {
          DeallocLeft(t, Dealloc(t.left, ptr, req, half).value, req, size, off, ptr);
        }
      } else {
        DeallocWorks(t.right, ptr - half, req, half, off + half);
        if Dealloc(t.right, ptr - half, req, half).Some? {
          DeallocRight(t, Dealloc(t.right, ptr - half, req, half).value, req, size, off, ptr);
        }
      }
    }
  }

  /** Allocating in `t'` at `p` would give back `t`, as far as bytes and blocks go. */
  ghost predicate DeallocEffect(t: Tree, t': Tree, req: nat, size: nat, off: nat, p: nat) {
    Wf(t', size) && AllocEffect(t', t, req, size, off, p) && Block(off + p, req) !in Blocks(t', off, size)
  }

  /** A node taken whole has at most the block at its start, of more than half its size. */
  lemma TakenBlocks(t: Tree, size: nat, off: nat)
    requires IsPowerOfTwo(size) && Wf(t, size) && (t.Leaf? || Taken(t, size))
    ensures forall b <- Blocks(t, off, size) :: b.addr == off && size / 2 < b.req
  {
  }

  lemma WfChildren(t: Tree, size: nat)
    requires Wf(t, size) && t.Branch?
    ensures size > 1 && Wf(t.left, size / 2) && Wf(t.right, size / 2)
  {
  }

  /** Below a node, a block is in the half that holds its address, and nowhere if the node is taken. */
  lemma BranchBlocks(t: Tree, ptr: nat, req: nat, size: nat, off: nat)
    requires IsPowerOfTwo(size) && Wf(t, size) && t.Branch? && 0 < req && !(ptr == 0 && req > size / 2)
    ensures var b := Block(off + ptr, req);
            && (b in Blocks(t, off, size) <==>
                  if ptr < size / 2 then b in Blocks(t.left, off, size / 2) else b in Blocks(t.right, off + size / 2, size / 2))
            && (b in Blocks(t, off, size) ==>
                  && !Taken(t, size)
                  && b !in if ptr < size / 2 then Blocks(t.right, off + size / 2, size / 2) else Blocks(t.left, off, size / 2))
  {
    hide FreeAt, Blocks, Taken, Wf, NextPowerOfTwo, IsPowerOfTwo;
    var b, half := Block(off + ptr, req), size / 2;
    WfChildren(t, size);
    Halves(size);
    BranchHas(t, off, size);
    if b in Blocks(t.left, off, half) { BlocksInRange(t.left, off, half, b); BlockNotEmpty(b); }
    if b in Blocks(t.right, off + half, half) { BlocksInRange(t.right, off + half, half, b); }
    if Taken(t, size) {
      FullHasNoBlocks(t.left, off, half);
      FullHasNoBlocks(t.right, off + half, half);
    }
  }

  lemma BlockNotEmpty(b: Block)
    ensures b.addr < b.End()
  {
    NextPowerShape(b.req);
  }

  lemma BranchHas(t: Tree, off: nat, size: nat)
    requires Wf(t, size) && t.Branch?
    ensures t.request != 0 ==> Taken(t, size) && size / 2 < t.request && Blocks(t, off, size) == {Block(off, t.request)}
    ensures t.request == 0 ==>
              Blocks(t, off, size) == if Taken(t, size) then {} else Blocks(t.left, off, size / 2) + Blocks(t.right, off + size / 2, size / 2)
    ensures Taken(t, size) ==> t.left.max == size / 2 && t.right.max == size / 2
  {
  }

  lemma DeallocWhole(t: Tree, req: nat, size: nat, off: nat)
    requires IsPowerOfTwo(size) && Wf(t, size) && size / 2 < req
    ensures Block(off, req) in Blocks(t, off, size) <==> t.max == 0 && t.request == req
    ensures t.max == 0 && t.request == req ==> DeallocEffect(t, t.(max := size, request := 0), req, size, off, 0)
  {
    hide FreeAt, AllocEffect, NextPowerOfTwo, DeallocEffect, IsPowerOfTwo;
    var b := Block(off, req);
    if b in Blocks(t, off, size) {
      BlockBelow(t, off, size, b);
      if t.request == 0 { DeeperBlocksAreSmall(t, off, size, b); }
    }
    if t.max == 0 && t.request == req {
      GiveBackWhole(t, size, off);
    }
  }

  lemma DeeperBlocksAreSmall(t: Tree, off: nat, size: nat, b: Block)
    requires IsPowerOfTwo(size) && Wf(t, size) && b in Blocks(t, off, size) && t.request == 0
    ensures b.req <= size / 2
  {
    hide Wf, Blocks, Taken, NextPowerOfTwo, IsPowerOfTwo;
    BlockBelow(t, off, size, b);
    if b in Blocks(t.left, off, size / 2) {
      BlocksInRange(t.left, off, size / 2, b);
    } else {
      BlocksInRange(t.right, off + size / 2, size / 2, b);
    }
  }

  lemma GiveBackWhole(t: Tree, size: nat, off: nat)
    requires IsPowerOfTwo(size) && Wf(t, size) && t.request != 0
    ensures DeallocEffect(t, t.(max := size, request := 0), t.request, size, off, 0)
  {
    hide FreeAt, AllocEffect, Blocks;
    var t' := t.(max := size, request := 0);
    assert Wf(t', size);
    TakeWhole(t', t.request, size, off);
    FullHasNoBlocks(t', off, size);
    assert t'.(max := 0, request := t.request) == t;
  }

  lemma DeallocLeft(t: Tree, l': Tree, req: nat, size: nat, off: nat, p: nat)
    requires IsPowerOfTwo(size) && size > 1 && Wf(t, size) && t.Branch? && !Taken(t, size) && 0 < req && p < size / 2
    requires DeallocEffect(t.left, l', req, size / 2, off, p)
    requires Block(off + p, req) !in Blocks(t.right, off + size / 2, size / 2)
    ensures DeallocEffect(t, Join(l', t.right, t.request, size), req, size, off, p)
  {
    hide FreeAt, Blocks, AllocEffect, Opens, Wf, Taken, Join, IsPowerOfTwo, NextPowerOfTwo;
    Halves(size);
    OpenIsJoin(t, size);
    OpenHasNoRequest(t, size);
    JoinOf(l', t.right, size, off);
    JoinBlocks(l', t.right, size, off);
    AllocLeft(Join(l', t.right, 0, size), l', t.right, t.left, req, size, off, p);
  }

  lemma DeallocRight(t: Tree, r': Tree, req: nat, size: nat, off: nat, p: nat)
    requires IsPowerOfTwo(size) && size > 1 && Wf(t, size) && t.Branch? && !Taken(t, size) && 0 < req && size / 2 <= p
    requires DeallocEffect(t.right, r', req, size / 2, off + size / 2, p - size / 2)
    requires Block(off + p, req) !in Blocks(t.left, off, size / 2)
    ensures DeallocEffect(t, Join(t.left, r', t.request, size), req, size, off, p)
  {
    hide FreeAt, Blocks, AllocEffect, Opens, Wf, Taken, Join, IsPowerOfTwo, NextPowerOfTwo;
    Halves(size);
    OpenIsJoin(t, size);
    OpenHasNoRequest(t, size);
    JoinOf(t.left, r', size, off);
    JoinBlocks(t.left, r', size, off);
    AllocRight(Join(t.left, r', 0, size), t.left, r', t.right, req, size, off, p - size / 2);
  }

  /** `reserve_range` takes exactly the given bytes, wherever its ends lie, and no block. */
  lemma {:induction false} ReserveWorks(t: Tree, lo: nat, hi: nat, size: nat, off: nat)
    requires IsPowerOfTwo(size) && Wf(t, size) && lo < hi <= size && FreeRange(t, size, lo, hi)
    ensures lo == 0 && hi == size ==> t.max == size
    ensures ReserveEffect(t, Reserve(t, lo, hi, size), lo, hi, size, off)
    decreases size, 1
  {
    hide FreeAt, Blocks, Wf, Join, ReserveEffect, GetChildren, Opens, Taken, IsPowerOfTwo;
    if lo == 0 && hi == size {
      ReserveWhole(t, size, off);
    } else {
      var half := size / 2;
      FreeMeansOpen(t, size, lo);
      Halves(size);
      ChildrenOf(t, size, off);
      var (l, r) := GetChildren(t, size);
      var l' := if lo < half then Reserve(l, lo, if hi < half then hi else half, half) else l;
      var r' := if hi > half then Reserve(r, (if lo < half then half else lo) - half, hi - half, half) else r;
      ReserveLeft(t, l, r, lo, hi, size, off);
      ReserveRight(t, l, r, lo, hi, size, off);
      ReserveJoin(t, l, r, l', r', lo, hi, size, off);
    }
  }

  ghost predicate ReserveEffect(t: Tree, t': Tree, lo: int, hi: int, size: nat, off: nat) {
    Wf(t', size) && Removes(t, t', size, lo, hi) && Blocks(t', off, size) == Blocks(t, off, size)
  }

  lemma FreeMeansOpen(t: Tree, size: nat, a: int)
    requires FreeAt(t, size, a)
    ensures !Taken(t, size)
  {
  }

  lemma ReserveLeft(t: Tree, l: Tree, r: Tree, lo: nat, hi: nat, size: nat, off: nat)
    requires IsPowerOfTwo(size) && size > 1 && Wf(l, size / 2) && Opens(t, l, r, size, off)
    requires lo < hi <= size && FreeRange(t, size, lo, hi)
    ensures var half := size / 2;
            if lo < half then
              var mid := if hi < half then hi else half;
              ReserveEffect(l, Reserve(l, lo, mid, half), lo, hi, half, off)
            else ReserveEffect(l, l, lo, hi, half, off)
    decreases size, 0
  {
    hide FreeAt, Blocks, Wf, Reserve;
    var half := size / 2;
    Halves(size);
    FreeInside(l, half);
    if lo < half {
      var mid := if hi < half then hi else half;
      forall a | lo <= a < mid ensures FreeAt(l, half, a) { assert FreeAt(t, size, a); }
      ReserveWorks(l, lo, mid, half, off);
    }
  }

  lemma ReserveRight(t: Tree, l: Tree, r: Tree, lo: nat, hi: nat, size: nat, off: nat)
    requires IsPowerOfTwo(size) && size > 1 && Wf(r, size / 2) && Opens(t, l, r, size, off)
    requires lo < hi <= size && FreeRange(t, size, lo, hi)
    ensures var half := size / 2;
            if hi > half then
              ReserveEffect(r, Reserve(r, (if lo < half then half else lo) - half, hi - half, half), lo - half, hi - half, half, off + half)
            else ReserveEffect(r, r, lo - half, hi - half, half, off + half)
    decreases size, 0
  {
    hide FreeAt, Blocks, Wf, Reserve;
    var half := size / 2;
    Halves(size);
    FreeInside(r, half);
    if hi > half {
      var mid := (if lo < half then half else lo) - half;
      forall a | mid <= a < hi - half ensures FreeAt(r, half, a) { assert FreeAt(t, size, a + half); }
      ReserveWorks(r, mid, hi - half, half, off + half);
    }
  }

  lemma FreeInside(t: Tree, size: nat)
    ensures forall a :: FreeAt(t, size, a) ==> 0 <= a < size
  {
  }

  lemma ReserveJoin(t: Tree, l: Tree, r: Tree, l': Tree, r': Tree, lo: nat, hi: nat, size: nat, off: nat)
    requires IsPowerOfTwo(size) && size > 1 && Opens(t, l, r, size, off)
    requires ReserveEffect(l, l', lo, hi, size / 2, off)
    requires ReserveEffect(r, r', lo - size / 2, hi - size / 2, size / 2, off + size / 2)
    ensures ReserveEffect(t, Join(l', r', 0, size), lo, hi, size, off)
  {
    hide FreeAt, Blocks, Wf, Join;
    Halves(size);
    JoinOf(l', r', size, off);
  }

  lemma ReserveWhole(t: Tree, size: nat, off: nat)
    requires IsPowerOfTwo(size) && Wf(t, size) && FreeRange(t, size, 0, size)
    ensures t.max == size && ReserveEffect(t, t.(max := 0), 0, size, size, off)
  {
    hide FreeAt;
    MaxBoundsFreeBlocks(t, size, 0, size);
    MaxIsPower(t, size);
    PowersDivide(t.max, size);
    FullHasNoBlocks(t, off, size);
    TakenIsEmpty(t.(max := 0), size);
    FreeInside(t, size);
  }

  lemma TakenIsEmpty(t: Tree, size: nat)
    requires Taken(t, size)
    ensures forall a :: !FreeAt(t, size, a)
  {
  }

  lemma {:induction false} NewWorks(bytes: nat, size: nat, off: nat)
    requires IsPowerOfTwo(size) && bytes <= size
    ensures NewEffect(New(bytes, size), bytes, size, off)
    decreases size
  {
    hide NewEffect, Wf, Join, IsPowerOfTwo, Opens;
    if bytes == 0 || bytes == size {
      NewLeaf(bytes, size, off);
    } else {
      Halves(size);
      var half := size / 2;
      var lower, upper := if half < bytes then half else bytes, if half < bytes then bytes - half else 0;
      NewWorks(lower, half, off);
      NewWorks(upper, half, off + half);
      NewJoin(New(lower, half), New(upper, half), bytes, size, off);
    }
  }

  lemma NewLeaf(bytes: nat, size: nat, off: nat)
    requires bytes == 0 || bytes == size
    ensures NewEffect(Leaf(bytes, 0), bytes, size, off)
  {
  }

  lemma NewJoin(l: Tree, r: Tree, bytes: nat, size: nat, off: nat)
    requires IsPowerOfTwo(size) && 0 < bytes < size
    requires NewEffect(l, if size / 2 < bytes then size / 2 else bytes, size / 2, off)
    requires NewEffect(r, if size / 2 < bytes then bytes - size / 2 else 0, size / 2, off + size / 2)
    ensures NewEffect(Join(l, r, 0, size), bytes, size, off)
  {
    hide FreeAt, Blocks, Wf, Join;
    Halves(size);
    JoinOf(l, r, size, off);
  }

  ghost predicate NewEffect(t: Tree, bytes: nat, size: nat, off: nat) {
    Wf(t, size) && Blocks(t, off, size) == {} && forall a :: FreeAt(t, size, a) <==> 0 <= a < bytes
  }

  // ---------------------------------------------------------------- the free set decides

  /** The `b` bytes at `p` are an aligned block of free bytes. */
  ghost predicate FreeBlock(t: Tree, size: nat, p: nat, b: nat) {
    IsPowerOfTwo(b) && p % b == 0 && p + b <= size && FreeRange(t, size, p, p + b)
  }

  lemma FirstByteFree(t: Tree, size: nat, p: nat, b: nat)
    requires FreeBlock(t, size, p, b) && 1 <= b
    ensures FreeAt(t, size, p)
  {
  }

  lemma ByteIsBlock(t: Tree, size: nat, a: int)
    requires FreeAt(t, size, a)
    ensures a >= 0 && FreeBlock(t, size, a, 1)
  {
  }

  ghost predicate SameFree(t: Tree, u: Tree, size: nat) {
    forall a :: FreeAt(t, size, a) <==> FreeAt(u, size, a)
  }

  /** `alloc` succeeds exactly when an aligned free block of at least the request exists. */
  lemma AllocSucceedsIff(t: Tree, req: nat, size: nat)
    requires IsPowerOfTwo(size) && Wf(t, size) && 0 < req
    ensures Alloc(t, req, size).Some? <==>
              exists p: nat, b: nat :: FreeBlock(t, size, p, b) && req <= b
  {
    AllocWorks(t, req, size, 0);
    if Alloc(t, req, size).Some? {
      NextPowerShape(req);
      var p, b := Alloc(t, req, size).value.0, NextPowerOfTwo(req);
      assert FitsAt(t, size, p, req);
      assert FreeBlock(t, size, p, b) && req <= b;
    } else {
      forall p: nat, b: nat | FreeBlock(t, size, p, b)
        ensures b < req
      {
        MaxBoundsFreeBlocks(t, size, p, b);
      }
    }
  }

  /** The cached maximum is the size of the largest aligned free block. */
  lemma MaxIsLargestFreeBlock(t: Tree, size: nat)
    requires IsPowerOfTwo(size) && Wf(t, size)
    ensures t.max > 0 ==> exists p: nat :: FreeBlock(t, size, p, t.max)
    ensures forall p: nat, b: nat :: FreeBlock(t, size, p, b) ==> b <= t.max
  {
    MaxIsPower(t, size);
    if t.max > 0 {
      AllocWorks(t, t.max, size, 0);
      NextPowerIs(t.max, t.max);
      var p := Alloc(t, t.max, size).value.0;
      assert FitsAt(t, size, p, t.max);
      assert FreeBlock(t, size, p, t.max);
    }
    forall p: nat, b: nat | FreeBlock(t, size, p, b)
      ensures b <= t.max
    {
      MaxBoundsFreeBlocks(t, size, p, b);
    }
  }

  lemma MaxFollowsFreeSet(t: Tree, u: Tree, size: nat)
    requires IsPowerOfTwo(size) && Wf(t, size) && Wf(u, size) && SameFree(t, u, size)
    ensures t.max == u.max
  {
    MaxAtLeast(t, u, size);
    MaxAtLeast(u, t, size);
  }

  lemma MaxAtLeast(t: Tree, u: Tree, size: nat)
    requires IsPowerOfTwo(size) && Wf(t, size) && Wf(u, size) && SameFree(t, u, size)
    ensures t.max <= u.max
  {
    MaxIsLargestFreeBlock(t, size);
    if t.max > 0 {
      var p: nat :| FreeBlock(t, size, p, t.max);
      forall a | p <= a < p + t.max ensures FreeAt(u, size, a) { assert FreeAt(t, size, a); }
      MaxBoundsFreeBlocks(u, size, p, t.max);
    }
  }

  /** The address depends on the free bytes alone, not on which children exist. */
  lemma {:induction false} AllocFollowsFreeSet(t: Tree, u: Tree, req: nat, size: nat)
    requires IsPowerOfTwo(size) && Wf(t, size) && Wf(u, size) && SameFree(t, u, size) && 0 < req
    ensures Alloc(t, req, size).Some? <==> Alloc(u, req, size).Some?
    ensures Alloc(t, req, size).Some? ==> Alloc(t, req, size).value.0 == Alloc(u, req, size).value.0
    decreases size
  {
    hide FreeAt, Blocks, Wf, Join;
    MaxFollowsFreeSet(t, u, size);
    AllocWorks(t, req, size, 0);
    AllocWorks(u, req, size, 0);
    if req <= t.max && req <= size / 2 {
      MaxIsPower(t, size);
      Halves(size);
      ChildrenOf(t, size, 0);
      ChildrenOf(u, size, 0);
      var (l, r) := GetChildren(t, size);
      var (l', r') := GetChildren(u, size);
      SameChildren(t, u, l, r, l', r', size);
      MaxFollowsFreeSet(l, l', size / 2);
      MaxFollowsFreeSet(r, r', size / 2);
      AllocFollowsFreeSet(l, l', req, size / 2);
      AllocFollowsFreeSet(r, r', req, size / 2);
    }
  }

  lemma SameChildren(t: Tree, u: Tree, l: Tree, r: Tree, l': Tree, r': Tree, size: nat)
    requires IsPowerOfTwo(size) && size > 1 && SameFree(t, u, size)
    requires Opens(t, l, r, size, 0) && Opens(u, l', r', size, 0)
    ensures SameFree(l, l', size / 2) && SameFree(r, r', size / 2)
  {
    hide Blocks;
    Halves(size);
    forall a ensures FreeAt(l, size / 2, a) <==> FreeAt(l', size / 2, a) {
      assert FreeAt(t, size, a) <==> FreeAt(u, size, a);
    }
    forall a ensures FreeAt(r, size / 2, a) <==> FreeAt(r', size / 2, a) {
      assert FreeAt(t, size, a + size / 2) <==> FreeAt(u, size, a + size / 2);
    }
  }

  // ---------------------------------------------------------------- live blocks

  lemma {:induction false} BlocksApart(t: Tree, off: nat, size: nat, b: Block, c: Block)
    requires IsPowerOfTwo(size) && Wf(t, size)
    requires b in Blocks(t, off, size) && c in Blocks(t, off, size) && b != c
    ensures b.End() <= c.addr || c.End() <= b.addr
    decreases t
  {
    hide Wf, Blocks, Taken, NextPowerOfTwo, IsPowerOfTwo;
    BlockBelow(t, off, size, b);
    BlockBelow(t, off, size, c);
    if t.request == 0 {
      var half := size / 2;
      var ls, rs := Blocks(t.left, off, half), Blocks(t.right, off + half, half);
      if b in ls { BlocksInRange(t.left, off, half, b); } else { BlocksInRange(t.right, off + half, half, b); }
      if c in ls { BlocksInRange(t.left, off, half, c); } else { BlocksInRange(t.right, off + half, half, c); }
      if b in ls && c in ls {
        BlocksApart(t.left, off, half, b, c);
      } else if b in rs && c in rs {
        BlocksApart(t.right, off + half, half, b, c);
      }
    }
  }

  ghost predicate AlignedFrom(b: Block, off: nat) {
    off <= b.addr && (b.addr - off) % NextPowerOfTwo(b.req) == 0
  }

  lemma AlignedAtStart(b: Block)
    ensures AlignedFrom(b, b.addr)
  {
    NextPowerShape(b.req);
  }

  lemma AlignedFromHalf(b: Block, off: nat, half: nat)
    requires IsPowerOfTwo(half) && AlignedFrom(b, off + half) && NextPowerOfTwo(b.req) <= half
    ensures AlignedFrom(b, off)
  {
    hide NextPowerOfTwo, IsPowerOfTwo;
    NextPowerShape(b.req);
    PowersDivide(NextPowerOfTwo(b.req), half);
    MultiplesAdd(b.addr - off - half, half, NextPowerOfTwo(b.req));
  }

  /** A live block is aligned, from the start of the tree, to its rounded-up size. */
  lemma {:induction false} BlockAligned(t: Tree, off: nat, size: nat, b: Block)
    requires IsPowerOfTwo(size) && Wf(t, size) && b in Blocks(t, off, size)
    ensures AlignedFrom(b, off)
    decreases t
  {
    hide Wf, Blocks, Taken, NextPowerOfTwo, IsPowerOfTwo, AlignedFrom;
    BlockBelow(t, off, size, b);
    if t.request != 0 {
      AlignedAtStart(b);
    } else if b in Blocks(t.left, off, size / 2) {
      BlockAligned(t.left, off, size / 2, b);
    } else {
      BlocksInRange(t.right, off + size / 2, size / 2, b);
      BlockAligned(t.right, off + size / 2, size / 2, b);
      AlignedInRange(b, off + size / 2);
      AlignedFromHalf(b, off, size / 2);
    }
  }

  lemma AlignedInRange(b: Block, off: nat)
    requires AlignedFrom(b, off)
    ensures off <= b.addr
  {
  }

  lemma RequestedIsTaken(t: Tree, size: nat)
    requires Wf(t, size) && t.request != 0
    ensures Taken(t, size)
  {
  }

  /** No byte of a live block is free. */
  lemma {:induction false} BlockNotFree(t: Tree, off: nat, size: nat, b: Block, a: int)
    requires IsPowerOfTwo(size) && Wf(t, size) && b in Blocks(t, off, size) && b.Covers(a)
    ensures !FreeAt(t, size, a - off)
    decreases t
  {
    hide Wf, Blocks, NextPowerOfTwo, IsPowerOfTwo;
    BlockBelow(t, off, size, b);
    if t.request != 0 {
      RequestedIsTaken(t, size);
    } else {
      var half := size / 2;
      if b in Blocks(t.left, off, half) {
        BlocksInRange(t.left, off, half, b);
        BlockNotFree(t.left, off, half, b, a);
      } else {
        BlocksInRange(t.right, off + half, half, b);
        BlockNotFree(t.right, off + half, half, b, a);
      }
    }
  }

  /** Without live blocks the tree has taken nothing, apart from what was never free: its maximum is restored. */
  lemma FreeingAllRestores(t: Tree, u: Tree, size: nat, off: nat)
    requires IsPowerOfTwo(size) && Wf(t, size) && Wf(u, size)
    requires Blocks(t, off, size) == {} && Blocks(u, off, size) == {}
    requires forall a :: Usable(t, off, size, a) <==> Usable(u, off, size, a)
    ensures SameFree(t, u, size) && t.max == u.max
  {
    forall a ensures FreeAt(t, size, a) <==> FreeAt(u, size, a) {
      assert Usable(t, off, size, off + a) <==> Usable(u, off, size, off + a);
    }
    MaxFollowsFreeSet(t, u, size);
  }

  /** Address `a` is free in the tree that starts at `off`. */
  ghost predicate FreeFrom(t: Tree, off: nat, size: nat, a: int) {
    FreeAt(t, size, a - off)
  }

  /** Address `a` is free or belongs to a live block: no reservation took it. */
  ghost predicate Usable(t: Tree, off: nat, size: nat, a: int) {
    FreeFrom(t, off, size, a) || exists b <- Blocks(t, off, size) :: b.Covers(a)
  }

  /** Allocation only moves bytes from the free set to a block. */
  lemma AllocKeepsUsable(t: Tree, t': Tree, req: nat, size: nat, off: nat, p: nat)
    requires AllocEffect(t, t', req, size, off, p)
    ensures forall a :: FreeFrom(t', off, size, a) <==> FreeFrom(t, off, size, a) && !Block(off + p, req).Covers(a)
    ensures forall a :: Usable(t', off, size, a) <==> Usable(t, off, size, a)
  {
    hide FreeAt, Blocks, NextPowerOfTwo, Wf;
    var b := Block(off + p, req);
    forall a ensures Usable(t', off, size, a) <==> Usable(t, off, size, a) {
      assert b in Blocks(t', off, size);
      if Usable(t, off, size, a) && !FreeFrom(t, off, size, a) {
        var c :| c in Blocks(t, off, size) && c.Covers(a);
        assert c in Blocks(t', off, size);
      }
      if b.Covers(a) { assert FreeAt(t, size, a - off); }
    }
  }
}
