/** Which of the free blocks the allocator hands out, said of the free bytes alone. */
module BuddyChoices {
  import opened Arithmetic
  import opened Powers
  import opened Buddy

  /** `m` is the size of the largest aligned block of free bytes in `lo..hi`, 0 if there is none. */
  ghost predicate IsLargest(t: Tree, size: nat, lo: nat, hi: nat, m: nat) {
    && (m > 0 ==> exists p: nat :: FreeWithin(t, size, lo, hi, p, m))
    && forall p: nat, b: nat :: FreeWithin(t, size, lo, hi, p, b) ==> b <= m
  }

  ghost predicate FreeWithin(t: Tree, size: nat, lo: nat, hi: nat, p: nat, b: nat) {
    lo <= p && p + b <= hi && FreeBlock(t, size, p, b)
  }

  /** The `s` bytes at `base` are an aligned block, free or not, whose halves can hold `req` bytes, and `p` lies in it. */
  predicate Around(size: nat, base: nat, s: nat, p: nat, req: nat) {
    IsPowerOfTwo(s) && base % s == 0 && base + s <= size && base <= p < base + s && s / 2 >= req
  }

  /** Of the two halves, with largest free blocks `l` and `r`, `p` lies in the lower one if this is enough and no larger than
      the upper, or if the upper is not enough. */
  ghost predicate InSmallerHalf(t: Tree, size: nat, p: nat, req: nat, base: nat, s: nat, l: nat, r: nat) {
    Around(size, base, s, p, req) && IsLargest(t, size, base, base + s / 2, l) && IsLargest(t, size, base + s / 2, base + s, r) ==>
      (p < base + s / 2 <==> (l >= req && l <= r) || r < req)
  }

  /** In every block around it, `p` lies in the half with the smaller sufficient free block, in the lower one of equals. */
  ghost predicate BestFit(t: Tree, size: nat, p: nat, req: nat) {
    forall base: nat, s: nat, l: nat, r: nat :: InSmallerHalf(t, size, p, req, base, s, l, r)
  }

  lemma FreeInLower(t: Tree, l: Tree, r: Tree, size: nat, lo: nat, hi: nat, p: nat, b: nat)
    requires IsPowerOfTwo(size) && size > 1 && Opens(t, l, r, size, 0) && hi <= size / 2
    ensures FreeWithin(t, size, lo, hi, p, b) <==> FreeWithin(l, size / 2, lo, hi, p, b)
  {
    hide FreeAt, Blocks, IsPowerOfTwo;
    Halves(size);
    if p + b <= hi {
      assert FreeRange(t, size, p, p + b) <==> FreeRange(l, size / 2, p, p + b) by {
        forall a | p <= a < p + b ensures FreeAt(t, size, a) <==> FreeAt(l, size / 2, a) { }
      }
    }
  }

  lemma FreeInUpper(t: Tree, l: Tree, r: Tree, size: nat, lo: nat, hi: nat, p: nat, b: nat)
    requires IsPowerOfTwo(size) && size > 1 && Opens(t, l, r, size, 0) && size / 2 <= lo <= hi <= size && size / 2 <= p
    ensures FreeWithin(t, size, lo, hi, p, b) <==> FreeWithin(r, size / 2, lo - size / 2, hi - size / 2, p - size / 2, b)
  {
    hide FreeAt, Blocks, IsPowerOfTwo;
    Halves(size);
    var half := size / 2;
    if p + b <= hi && IsPowerOfTwo(b) {
      PowerIsPositive(b);
      PowersDivide(b, half);
      PowersDivide(half, b);
      ShiftKeepsAligned(p, b, half);
      assert FreeRange(t, size, p, p + b) <==> FreeRange(r, half, p - half, p - half + b) by {
        if FreeRange(t, size, p, p + b) {
          forall a | p - half <= a < p - half + b ensures FreeAt(r, half, a) { assert FreeAt(t, size, a + half); }
        }
        if FreeRange(r, half, p - half, p - half + b) {
          forall a | p <= a < p + b ensures FreeAt(t, size, a) { assert FreeAt(r, half, a - half); }
        }
      }
    }
  }

  lemma ShiftKeepsAligned(p: nat, b: nat, half: nat)
    requires b > 0 && half % b == 0 && half <= p
    ensures p % b == 0 <==> (p - half) % b == 0
  {
    var h := Multiple(half, b);
    if p % b == 0 {
      var q := Multiple(p, b);
      MulAdd(q - h, h, b);
      DivModUnique(p - half, q - h, 0, b);
    }
    if (p - half) % b == 0 {
      MultiplesAdd(p - half, half, b);
    }
  }

  lemma LargestInLower(t: Tree, l: Tree, r: Tree, size: nat, lo: nat, hi: nat, m: nat)
    requires IsPowerOfTwo(size) && size > 1 && Opens(t, l, r, size, 0) && hi <= size / 2
    ensures IsLargest(t, size, lo, hi, m) <==> IsLargest(l, size / 2, lo, hi, m)
  {
    hide FreeWithin, Opens, IsPowerOfTwo;
    forall p: nat, b: nat ensures FreeWithin(t, size, lo, hi, p, b) <==> FreeWithin(l, size / 2, lo, hi, p, b) {
      FreeInLower(t, l, r, size, lo, hi, p, b);
    }
  }

  lemma LargestInUpper(t: Tree, l: Tree, r: Tree, size: nat, lo: nat, hi: nat, m: nat)
    requires IsPowerOfTwo(size) && size > 1 && Opens(t, l, r, size, 0) && size / 2 <= lo <= hi <= size
    ensures IsLargest(t, size, lo, hi, m) <==> IsLargest(r, size / 2, lo - size / 2, hi - size / 2, m)
  {
    hide Opens, IsPowerOfTwo, FreeBlock;
    var half := size / 2;
    forall p: nat, b: nat | half <= p
      ensures FreeWithin(t, size, lo, hi, p, b) <==> FreeWithin(r, half, lo - half, hi - half, p - half, b)
    {
      FreeInUpper(t, l, r, size, lo, hi, p, b);
    }
    if IsLargest(t, size, lo, hi, m) {
      LargestMovesDown(t, r, size, half, lo, hi, m);
    }
    if IsLargest(r, half, lo - half, hi - half, m) {
      LargestMovesUp(t, r, size, half, lo, hi, m);
    }
  }

  lemma LargestMovesDown(t: Tree, r: Tree, size: nat, half: nat, lo: nat, hi: nat, m: nat)
    requires half <= lo <= hi && IsLargest(t, size, lo, hi, m)
    requires forall p: nat, b: nat :: half <= p ==>
               (FreeWithin(t, size, lo, hi, p, b) <==> FreeWithin(r, half, lo - half, hi - half, p - half, b))
    ensures IsLargest(r, half, lo - half, hi - half, m)
  {
    hide FreeBlock;
    var lo', hi' := lo - half, hi - half;
    forall p: nat, b: nat | FreeWithin(r, half, lo', hi', p, b) ensures b <= m {
      assert FreeWithin(t, size, lo, hi, p + half, b);
    }
    if m > 0 {
      var p: nat :| FreeWithin(t, size, lo, hi, p, m);
      var q: nat := p - half;
      assert FreeWithin(r, half, lo - half, hi - half, q, m);
    }
  }

  lemma LargestMovesUp(t: Tree, r: Tree, size: nat, half: nat, lo: nat, hi: nat, m: nat)
    requires half <= lo <= hi && IsLargest(r, half, lo - half, hi - half, m)
    requires forall p: nat, b: nat :: half <= p ==>
               (FreeWithin(t, size, lo, hi, p, b) <==> FreeWithin(r, half, lo - half, hi - half, p - half, b))
    ensures IsLargest(t, size, lo, hi, m)
  {
    hide FreeBlock;
    forall p: nat, b: nat | FreeWithin(t, size, lo, hi, p, b) ensures b <= m {
      assert p >= half;
      var q: nat := p - half;
      assert FreeWithin(r, half, lo - half, hi - half, q, b);
    }
    if m > 0 {
      var q: nat :| FreeWithin(r, half, lo - half, hi - half, q, m);
      assert FreeWithin(t, size, lo, hi, q + half, m);
    }
  }

  /** The cached maximum is the largest, and no other number is. */
  lemma MaxIsTheLargest(t: Tree, size: nat, m: nat)
    requires IsPowerOfTwo(size) && Wf(t, size)
    ensures IsLargest(t, size, 0, size, m) <==> m == t.max
  {
    hide Wf, IsPowerOfTwo, FreeRange;
    MaxIsLargestFreeBlock(t, size);
    if t.max > 0 {
      var p: nat :| FreeBlock(t, size, p, t.max);
      assert FreeWithin(t, size, 0, size, p, t.max);
    }
    assert IsLargest(t, size, 0, size, t.max);
    LargestIsUnique(t, size, 0, size, m, t.max);
  }

  lemma LargestIsUnique(t: Tree, size: nat, lo: nat, hi: nat, m: nat, n: nat)
    ensures IsLargest(t, size, lo, hi, m) && IsLargest(t, size, lo, hi, n) ==> m == n
  {
    hide FreeWithin;
  }

  /** The largest free blocks of the two halves are those of the children. */
  lemma LargestOfHalves(t: Tree, l: Tree, r: Tree, size: nat, m: nat)
    requires IsPowerOfTwo(size) && size > 1 && Opens(t, l, r, size, 0) && Wf(l, size / 2) && Wf(r, size / 2)
    ensures IsLargest(t, size, 0, size / 2, m) <==> m == l.max
    ensures IsLargest(t, size, size / 2, size, m) <==> m == r.max
  {
    hide IsLargest, Wf, Opens, IsPowerOfTwo;
    Halves(size);
    LargestInLower(t, l, r, size, 0, size / 2, m);
    LargestInUpper(t, l, r, size, size / 2, size, m);
    MaxIsTheLargest(l, size / 2, m);
    MaxIsTheLargest(r, size / 2, m);
  }

  /** A block that is not the whole lies in one half. */
  lemma InOneHalf(size: nat, base: nat, s: nat, p: nat, req: nat)
    requires IsPowerOfTwo(size) && size > 1 && Around(size, base, s, p, req) && s != size
    ensures if p < size / 2 then Around(size / 2, base, s, p, req)
            else base >= size / 2 && Around(size / 2, base - size / 2, s, p - size / 2, req)
  {
    hide IsPowerOfTwo;
    var half := size / 2;
    Halves(size);
    PowerIsPositive(s);
    PowersDivide(s, size);
    PowersDivide(size, s);
    PowersDivide(s, half);
    AlignedFits(base, s, half);
    if base >= half {
      ShiftKeepsAligned(base, s, half);
    }
  }

  lemma LowerBestFit(t: Tree, l: Tree, r: Tree, size: nat, p: nat, req: nat, base: nat, s: nat, m: nat, n: nat)
    requires IsPowerOfTwo(size) && size > 1 && Opens(t, l, r, size, 0) && Around(size, base, s, p, req) && s != size
    requires p < size / 2 && InSmallerHalf(l, size / 2, p, req, base, s, m, n)
    ensures InSmallerHalf(t, size, p, req, base, s, m, n)
  {
    hide IsLargest, Opens, IsPowerOfTwo;
    InOneHalf(size, base, s, p, req);
    LargestInLower(t, l, r, size, base, base + s / 2, m);
    LargestInLower(t, l, r, size, base + s / 2, base + s, n);
  }

  lemma UpperBestFit(t: Tree, l: Tree, r: Tree, size: nat, p: nat, req: nat, base: nat, s: nat, m: nat, n: nat)
    requires IsPowerOfTwo(size) && size > 1 && Opens(t, l, r, size, 0) && Around(size, base, s, p, req) && s != size
    requires p >= size / 2 && base >= size / 2
    requires InSmallerHalf(r, size / 2, p - size / 2, req, base - size / 2, s, m, n)
    ensures InSmallerHalf(t, size, p, req, base, s, m, n)
  {
    hide IsLargest, Opens, IsPowerOfTwo;
    InOneHalf(size, base, s, p, req);
    LargestInUpper(t, l, r, size, base, base + s / 2, m);
    LargestInUpper(t, l, r, size, base + s / 2, base + s, n);
  }

  lemma BestFitLower(t: Tree, l: Tree, r: Tree, size: nat, p: nat, req: nat)
    requires IsPowerOfTwo(size) && size > 1 && Opens(t, l, r, size, 0) && Wf(l, size / 2) && Wf(r, size / 2)
    requires p < size / 2 && BestFit(l, size / 2, p, req) && ((l.max >= req && l.max <= r.max) || r.max < req)
    ensures BestFit(t, size, p, req)
  {
    hide Wf, Opens, IsPowerOfTwo, IsLargest;
    forall base: nat, s: nat, m: nat, n: nat ensures InSmallerHalf(t, size, p, req, base, s, m, n) {
      assert InSmallerHalf(l, size / 2, p, req, base, s, m, n);
      if Around(size, base, s, p, req) && s != size {
        LowerBestFit(t, l, r, size, p, req, base, s, m, n);
      } else {
        LargestOfHalves(t, l, r, size, m);
        LargestOfHalves(t, l, r, size, n);
      }
    }
  }

  lemma BestFitUpper(t: Tree, l: Tree, r: Tree, size: nat, p: nat, req: nat)
    requires IsPowerOfTwo(size) && size > 1 && Opens(t, l, r, size, 0) && Wf(l, size / 2) && Wf(r, size / 2)
    requires p >= size / 2 && BestFit(r, size / 2, p - size / 2, req) && !((l.max >= req && l.max <= r.max) || r.max < req)
    ensures BestFit(t, size, p, req)
  {
    hide Wf, Opens, IsPowerOfTwo, IsLargest;
    forall base: nat, s: nat, m: nat, n: nat ensures InSmallerHalf(t, size, p, req, base, s, m, n) {
      if Around(size, base, s, p, req) && s != size {
        InOneHalf(size, base, s, p, req);
        assert InSmallerHalf(r, size / 2, p - size / 2, req, base - size / 2, s, m, n);
        UpperBestFit(t, l, r, size, p, req, base, s, m, n);
      } else {
        LargestOfHalves(t, l, r, size, m);
        LargestOfHalves(t, l, r, size, n);
      }
    }
  }

  /** In every block around the one it hands out, the allocator has gone to the half with the smaller sufficient free block. */
  lemma {:induction false} AllocIsBestFit(t: Tree, req: nat, size: nat)
    requires IsPowerOfTwo(size) && Wf(t, size) && 0 < req && Alloc(t, req, size).Some?
    ensures BestFit(t, size, Alloc(t, req, size).value.0, req)
    decreases size
  {
    hide Wf, Opens, IsPowerOfTwo, BestFit, Join, FreeRange, Removes, Blocks;
    if req <= size / 2 {
      PositiveIsOpen(t, size);
      Halves(size);
      ChildrenOf(t, size, 0);
      var (l, r) := GetChildren(t, size);
      AllocWorks(l, req, size / 2, 0);
      AllocWorks(r, req, size / 2, 0);
      if (l.max >= req && l.max <= r.max) || r.max < req {
        AllocIsBestFit(l, req, size / 2);
        BestFitLower(t, l, r, size, Alloc(l, req, size / 2).value.0, req);
      } else {
        AllocIsBestFit(r, req, size / 2);
        BestFitUpper(t, l, r, size, Alloc(r, req, size / 2).value.0 + size / 2, req);
      }
    } else {
      NothingAround(t, size, Alloc(t, req, size).value.0, req);
    }
  }

  lemma NothingAround(t: Tree, size: nat, p: nat, req: nat)
    requires req > size / 2
    ensures BestFit(t, size, p, req)
  {
    hide IsLargest, IsPowerOfTwo;
  }

  /** The free bytes alone say where the block is: no two aligned free blocks of the request are both the best fit. */
  lemma {:induction false} BestFitIsUnique(t: Tree, size: nat, p: nat, q: nat, req: nat)
    requires IsPowerOfTwo(size) && Wf(t, size) && 0 < req
    requires FitsAt(t, size, p, req) && FitsAt(t, size, q, req) && BestFit(t, size, p, req) && BestFit(t, size, q, req)
    ensures p == q
    decreases size
  {
    hide Wf, Opens, IsPowerOfTwo, BestFit, FreeRange, FitsAt, NextPowerOfTwo;
    NextPowerShape(req);
    if req > size / 2 {
      OnlyPlace(t, size, p, req);
      OnlyPlace(t, size, q, req);
    } else {
      FitsInOpen(t, size, p, req);
      FitsInOpen(t, size, q, req);
      Halves(size);
      ChildrenOf(t, size, 0);
      var (l, r) := GetChildren(t, size);
      RootChoice(t, l, r, size, p, req);
      RootChoice(t, l, r, size, q, req);
      if p < size / 2 {
        BestFitDown(t, l, r, size, p, req);
        BestFitDown(t, l, r, size, q, req);
        BestFitIsUnique(l, size / 2, p, q, req);
      } else {
        BestFitDown(t, l, r, size, p, req);
        BestFitDown(t, l, r, size, q, req);
        BestFitIsUnique(r, size / 2, p - size / 2, q - size / 2, req);
      }
    }
  }

  lemma OnlyPlace(t: Tree, size: nat, p: nat, req: nat)
    requires IsPowerOfTwo(size) && req > size / 2 && FitsAt(t, size, p, req)
    ensures p == 0
  {
    hide FreeRange, IsPowerOfTwo;
    var n := NextPowerOfTwo(req);
    NextPowerShape(req);
    PowersDivide(n, size);
    PowersDivide(size, n);
    if p > 0 {
      var k := Multiple(p, n);
      MulOrder(1, k, n);
    }
  }

  lemma FitsInOpen(t: Tree, size: nat, p: nat, req: nat)
    requires IsPowerOfTwo(size) && Wf(t, size) && 0 < req <= size / 2 && FitsAt(t, size, p, req)
    ensures !Taken(t, size) && size > 1 && p < size
  {
    hide IsPowerOfTwo, Wf;
    NextPowerShape(req);
    assert FreeAt(t, size, p);
  }

  /** In which half the best fit lies. */
  lemma RootChoice(t: Tree, l: Tree, r: Tree, size: nat, p: nat, req: nat)
    requires IsPowerOfTwo(size) && size > 1 && Opens(t, l, r, size, 0) && Wf(l, size / 2) && Wf(r, size / 2)
    requires BestFit(t, size, p, req) && p < size && 0 < req <= size / 2
    ensures p < size / 2 <==> (l.max >= req && l.max <= r.max) || r.max < req
  {
    hide Wf, Opens, IsPowerOfTwo, IsLargest;
    LargestOfHalves(t, l, r, size, l.max);
    LargestOfHalves(t, l, r, size, r.max);
    assert InSmallerHalf(t, size, p, req, 0, size, l.max, r.max);
  }

  lemma BestFitDown(t: Tree, l: Tree, r: Tree, size: nat, p: nat, req: nat)
    requires IsPowerOfTwo(size) && size > 1 && Opens(t, l, r, size, 0) && 0 < req <= size / 2
    requires BestFit(t, size, p, req) && FitsAt(t, size, p, req)
    ensures p < size / 2 ==> BestFit(l, size / 2, p, req) && FitsAt(l, size / 2, p, req)
    ensures p >= size / 2 ==> BestFit(r, size / 2, p - size / 2, req) && FitsAt(r, size / 2, p - size / 2, req)
    ensures p < size
  {
    hide Opens, IsPowerOfTwo, IsLargest, NextPowerOfTwo;
    var half, n := size / 2, NextPowerOfTwo(req);
    NextPowerShape(req);
    Halves(size);
    PowersDivide(n, half);
    PowersDivide(half, n);
    AlignedFits(p, n, half);
    if p < half {
      assert FreeWithin(t, size, 0, half, p, n);
      FreeInLower(t, l, r, size, 0, half, p, n);
      forall base: nat, s: nat, m: nat, k: nat ensures InSmallerHalf(l, half, p, req, base, s, m, k) {
        DownLower(t, l, r, size, p, req, base, s, m, k);
      }
    } else {
      assert FreeWithin(t, size, half, size, p, n);
      FreeInUpper(t, l, r, size, half, size, p, n);
      var q: nat := p - half;
      forall base: nat, s: nat, m: nat, k: nat ensures InSmallerHalf(r, half, q, req, base, s, m, k) {
        DownUpper(t, l, r, size, p, req, base, s, m, k);
      }
    }
  }

  lemma DownLower(t: Tree, l: Tree, r: Tree, size: nat, p: nat, req: nat, base: nat, s: nat, m: nat, k: nat)
    requires IsPowerOfTwo(size) && size > 1 && Opens(t, l, r, size, 0) && BestFit(t, size, p, req)
    ensures InSmallerHalf(l, size / 2, p, req, base, s, m, k)
  {
    hide Opens, IsPowerOfTwo, IsLargest;
    if Around(size / 2, base, s, p, req) {
      assert InSmallerHalf(t, size, p, req, base, s, m, k);
      LargestInLower(t, l, r, size, base, base + s / 2, m);
      LargestInLower(t, l, r, size, base + s / 2, base + s, k);
    }
  }

  lemma DownUpper(t: Tree, l: Tree, r: Tree, size: nat, p: nat, req: nat, base: nat, s: nat, m: nat, k: nat)
    requires IsPowerOfTwo(size) && size > 1 && Opens(t, l, r, size, 0) && BestFit(t, size, p, req) && p >= size / 2
    ensures InSmallerHalf(r, size / 2, p - size / 2, req, base, s, m, k)
  {
    hide Opens, IsPowerOfTwo, IsLargest;
    var half := size / 2;
    if Around(half, base, s, p - half, req) {
      Halves(size);
      PowerIsPositive(s);
      PowersDivide(s, half);
      ShiftKeepsAligned(base + half, s, half);
      assert InSmallerHalf(t, size, p, req, base + half, s, m, k);
      LargestInUpper(t, l, r, size, base + half, base + half + s / 2, m);
      LargestInUpper(t, l, r, size, base + half + s / 2, base + half + s, k);
    }
  }
}
