/** Products, quotients and remainders by a variable. */
module Arithmetic {

  lemma {:induction false} Distribute(a: nat, b: nat, m: nat)
    ensures (a + b) * m == a * m + b * m
  {
  }

  lemma {:induction false} MulMono(a: nat, b: nat, m: nat)
    ensures a <= b ==> a * m <= b * m
  {
  }

  lemma {:induction false} DivFacts(d: nat, m: nat)
    requires m > 0
    ensures d == d / m * m + d % m
    ensures d / m * m <= d < d / m * m + m
  {
  }

  /** Quotient and remainder are determined by the division equation. */
  lemma {:induction false} ModUnique(j: nat, m: nat, t: nat, r: nat)
    requires m > 0 && j == t * m + r && r < m
    ensures j % m == r && j / m == t
  {
    var t', r' := j / m, j % m;
    assert j == t' * m + r';
    MulMono(t + 1, t', m);
    MulMono(t' + 1, t, m);
    assert (t + 1) * m == t * m + m && (t' + 1) * m == t' * m + m;
  }

  /** Reducing one summand first does not change the sum's remainder. */
  lemma {:induction false} AddMod(a: nat, b: nat, m: nat)
    requires m > 0
    ensures (a % m + b) % m == (a + b) % m
  {
    DivFacts(a, m);
    var x := a % m + b;
    DivFacts(x, m);
    Distribute(a / m, x / m, m);
    ModUnique(a + b, m, a / m + x / m, x % m);
  }

  lemma {:induction false} Assoc(a: int, b: int, c: int)
    ensures a * b * c == a * (b * c)
  {
  }

  lemma {:induction false} FactorNonNegative(x: int, g: nat, r: nat)
    requires r < g && 0 <= x * g + r
    ensures x >= 0
  {
  }

  // ---- Powers of two --------------------------------------------------------------

  function Pow2(m: nat): (n: nat)
    ensures n > 0
  {
    if m == 0 then 1 else 2 * Pow2(m - 1)
  }

  lemma {:induction false} Pow2Add(a: nat, b: nat)
    ensures Pow2(a + b) == Pow2(a) * Pow2(b)
  {
    if a > 0 {
      Pow2Add(a - 1, b);
      Assoc(2, Pow2(a - 1), Pow2(b));
    }
  }

  /** The largest power of two that divides `p`. */
  function LowBit(p: nat): (g: nat)
    requires p > 0
    ensures 0 < g <= p
  {
    if p % 2 == 1 then 1 else 2 * LowBit(p / 2)
  }

  /** `p` is an odd multiple of its low bit, which is a power of two. */
  lemma {:induction false} LowBitFacts(p: nat) returns (q: nat, m: nat)
    requires p > 0
    ensures LowBit(p) == Pow2(m) && p == q * LowBit(p) && q % 2 == 1
    ensures forall n: nat :: p < Pow2(n) ==> m < n
  {
    if p % 2 == 1 {
      q, m := p, 0;
    } else {
      q, m := LowBitFacts(p / 2);
      assert p == 2 * (q * LowBit(p / 2)) == q * (2 * LowBit(p / 2));
      m := m + 1;
      forall n: nat | p < Pow2(n) ensures m < n {
        assert n > 0;
        assert p / 2 < Pow2(n - 1);
      }
    }
  }

  /** An odd number has an inverse modulo every power of two. */
  lemma {:induction false} OddInverse(q: nat, m: nat) returns (x: nat, t: nat)
    requires q % 2 == 1
    ensures q * x == 1 + t * Pow2(m)
  {
    if m == 0 {
      x, t := 1, q - 1;
    } else {
      var y, u := OddInverse(q, m - 1);
      var h := Pow2(m - 1);
      if u % 2 == 0 {
        x, t := y, u / 2;
        Assoc(t, 2, h);
        assert t * 2 == u;
      } else {
        x, t := y + h, (u + q) / 2;
        Distribute(u, q, h);
        assert q * (y + h) == q * y + q * h;
        Assoc(t, 2, h);
        assert t * 2 == u + q;
      }
    }
  }
}
