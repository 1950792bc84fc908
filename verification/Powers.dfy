/** Powers of two and alignment. */
module Powers {
  import opened Arithmetic

  predicate IsPowerOfTwo(n: nat) {
    n == 1 || (n > 1 && n % 2 == 0 && IsPowerOfTwo(n / 2))
  }

  lemma PowerIsPositive(n: nat)
    requires IsPowerOfTwo(n)
    ensures n > 0
  {
  }

  function NextPowerFrom(n: nat, p: nat): pos
    requires p > 0
    decreases n - p
  {
    if n <= p then p else NextPowerFrom(n, 2 * p)
  }

  /** The smallest power of two that is at least `n`. */
  function NextPowerOfTwo(n: nat): pos {
    NextPowerFrom(n, 1)
  }

  lemma {:induction false} DoublePower(p: nat)
    requires IsPowerOfTwo(p)
    ensures IsPowerOfTwo(2 * p)
  {
    assert (2 * p) / 2 == p;
  }

  /** Of two powers of two the larger is a multiple of the smaller. */
  lemma {:induction false} PowersDivide(b: nat, p: nat)
    requires IsPowerOfTwo(b) && IsPowerOfTwo(p)
    ensures b <= p ==> p % b == 0
    ensures b < p ==> b <= p / 2
    decreases p
  {
    if b < p {
      var h := p / 2;
      assert p == h + h;
      PowersDivide(b, h);
      if h < b {
        PowersDivide(h, b);
      }
      MultiplesAdd(h, h, b);
    } else if b == p {
      DivModUnique(p, 1, 0, b);
    }
  }

  lemma {:induction false} NextPowerFromIs(n: nat, p: nat, size: nat)
    requires IsPowerOfTwo(p) && IsPowerOfTwo(size) && size / 2 < n <= size && (p == 1 || p / 2 < n)
    ensures NextPowerFrom(n, p) == size
    decreases n - p
  {
    if n <= p {
      if p < size { PowersDivide(p, size); } else { PowersDivide(size, p); }
    } else {
      DoublePower(p);
      NextPowerFromIs(n, 2 * p, size);
    }
  }

  lemma NextPowerIs(n: nat, size: nat)
    requires IsPowerOfTwo(size) && size / 2 < n <= size
    ensures NextPowerOfTwo(n) == size
  {
    NextPowerFromIs(n, 1, size);
  }

  lemma {:induction false} NextPowerFromShape(n: nat, p: nat)
    requires IsPowerOfTwo(p) && (p == 1 || p / 2 < n)
    ensures var q := NextPowerFrom(n, p);
            IsPowerOfTwo(q) && n <= q && (q == 1 || q / 2 < n)
    decreases n - p
  {
    if n > p {
      DoublePower(p);
      NextPowerFromShape(n, 2 * p);
    }
  }

  lemma NextPowerShape(n: nat)
    ensures var q := NextPowerOfTwo(n);
            IsPowerOfTwo(q) && n <= q && (q == 1 || q / 2 < n)
  {
    NextPowerFromShape(n, 1);
  }

  /** Aligned blocks do not straddle aligned boundaries. */
  lemma AlignedFits(addr: nat, b: nat, h: nat)
    requires b > 0 && addr % b == 0 && h % b == 0
    ensures addr < h ==> addr + b <= h
    ensures h <= addr ==> (addr - h) % b == 0
  {
    var i := Multiple(addr, b);
    var j := Multiple(h, b);
    MulOrder(j, i, b);
    MulOrder(i, j, b);
    if h <= addr {
      MulAdd(i, -j, b);
      MulOrder(i - j, -1, b);
      DivModUnique(addr - h, i - j, 0, b);
    }
  }
}
