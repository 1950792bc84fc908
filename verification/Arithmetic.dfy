/** Numbers, and facts about products and quotients that the solver does not find by itself. */
module Arithmetic {
  type pos = n: nat | n > 0 witness 1

  function Max(a: nat, b: nat): nat { if a < b then b else a }

  function Min(a: nat, b: nat): nat { if a < b then a else b }

  lemma MulAdd(a: int, b: int, d: int)
    ensures (a + b) * d == a * d + b * d
  {
  }

  lemma MulAssociates(a: int, b: int, d: int)
    ensures a * (b * d) == (a * b) * d
  {
  }

  lemma MulOrder(a: int, b: int, d: nat)
    ensures a <= b ==> a * d <= b * d
    ensures a < b ==> a * d + d <= b * d
  {
    if a < b {
      MulAdd(a, b - a, d);
      MulAdd(1, b - a - 1, d);
      assert (b - a - 1) * d >= 0;
    }
  }

  lemma DivModUnique(x: int, q: int, r: nat, d: nat)
    requires r < d && x == q * d + r
    ensures x / d == q && x % d == r
  {
    var q', r' := x / d, x % d;
    assert x == q' * d + r';
    MulOrder(q, q', d);
    MulOrder(q', q, d);
  }

  /** An exact multiple, split off from its quotient. */
  lemma Multiple(x: int, d: nat) returns (q: int)
    requires d > 0 && x % d == 0
    ensures x == q * d
  {
    q := x / d;
    assert x == d * q;
  }

  lemma Quotient(x: nat, d: nat) returns (q: nat, rest: nat)
    requires d > 0
    ensures x == q * d + rest && rest < d
  {
    q, rest := x / d, x % d;
    assert x == d * q + rest;
  }

  lemma MultiplesAdd(x: int, y: int, d: nat)
    requires d > 0 && x % d == 0 && y % d == 0
    ensures (x + y) % d == 0
  {
    var a := Multiple(x, d);
    var b := Multiple(y, d);
    MulAdd(a, b, d);
    DivModUnique(x + y, a + b, 0, d);
  }
}
