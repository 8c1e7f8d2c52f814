/** Powers of two, and quotients and remainders of natural numbers. */
module Powers {
  function Pow2(n: nat): (r: nat)
    ensures r > 0
  {
    if n == 0 then 1 else 2 * Pow2(n - 1)
  }

  lemma {:induction false} Pow2Sum(a: nat, b: nat)
    ensures Pow2(a + b) == Pow2(a) * Pow2(b)
  {
    if b > 0 {
      Pow2Sum(a, b - 1);
      assert Pow2(a) * Pow2(b) == 2 * (Pow2(a) * Pow2(b - 1));
    }
  }

  function Quot(x: nat, d: nat): nat
    requires d > 0
  {
    x / d
  }

  function Rem(x: nat, d: nat): (r: nat)
    requires d > 0
    ensures r < d
  {
    x % d
  }

  lemma DivMod(x: nat, d: nat)
    requires d > 0
    ensures x == Quot(x, d) * d + Rem(x, d)
  {
  }

  lemma MulMonotone(a: nat, b: nat, d: nat)
    requires a <= b
    ensures a * d <= b * d
  {
    assert b * d == a * d + (b - a) * d;
  }

  lemma QuotientUnique(x: nat, d: nat, q: nat, r: nat)
    requires d > 0 && x == q * d + r && r < d
    ensures Quot(x, d) == q && Rem(x, d) == r
  {
    hide Quot, Rem;
    var q' := Quot(x, d);
    DivMod(x, d);
    assert (q' + 1) * d == q' * d + d && (q + 1) * d == q * d + d;
    if q' < q {
      MulMonotone(q' + 1, q, d);
    } else if q' > q {
      MulMonotone(q + 1, q', d);
    }
  }

  lemma Regroup(q: nat, r: nat, b: nat, a: nat)
    ensures (q * b + r) * a == q * (a * b) + r * a
  {
    assert q * b * a == q * (a * b);
  }

  lemma DivDiv(x: nat, a: nat, b: nat)
    requires a > 0 && b > 0
    ensures a * b > 0 && Quot(x, a * b) == Quot(Quot(x, a), b)
  {
    var q, r := Quot(Quot(x, a), b), Rem(Quot(x, a), b);
    hide Quot, Rem;
    DivMod(x, a);
    DivMod(Quot(x, a), b);
    Regroup(q, r, b, a);
    MulMonotone(r + 1, b, a);
    assert (r + 1) * a == r * a + a && b * a == a * b;
    MulMonotone(1, a * b, 1);
    QuotientUnique(x, a * b, q, r * a + Rem(x, a));
  }

  /** Shifting by m + n is shifting by n and then by m. */
  lemma ShiftTwice(x: nat, m: nat, n: nat)
    ensures Quot(x, Pow2(m + n)) == Quot(Quot(x, Pow2(n)), Pow2(m))
  {
    hide Pow2, Quot;
    Pow2Sum(n, m);
    assert n + m == m + n;
    DivDiv(x, Pow2(n), Pow2(m));
  }
}
