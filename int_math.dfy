/** Powers of two, used for quadtree widths. */
module IntMath {

  function Pow2(n: nat): (r: nat)
    ensures r >= 1
  {
    if n == 0 then 1 else 2 * Pow2(n - 1)
  }

  lemma {:induction false} Pow2Add(a: nat, b: nat)
    ensures Pow2(a + b) == Pow2(a) * Pow2(b)
  {
    if a > 0 {
      Pow2Add(a - 1, b);
    }
  }

  lemma {:induction false} Pow2Monotone(a: nat, b: nat)
    requires a <= b
    ensures Pow2(a) <= Pow2(b)
  {
    if a < b {
      Pow2Monotone(a, b - 1);
    }
  }

  lemma Pow2Halves(n: nat)
    requires n > 0
    ensures Pow2(n) / 2 == Pow2(n - 1) && Pow2(n) % 2 == 0
  {
  }

  /** Euclidean division is unique: a quotient and a remainder below f that rebuild a are a / f and a % f. */
  lemma DivModUnique(a: nat, f: nat, q: nat, rem: nat)
    requires f > 0 && rem < f && a == q * f + rem
    ensures a / f == q && a % f == rem
  {
    var q', r' := a / f, a % f;
    assert a == q' * f + r';
    if q' < q {
      assert q' * f + f <= q * f by { MulLe(q' + 1, q, f); }
    } else if q' > q {
      assert q * f + f <= q' * f by { MulLe(q + 1, q', f); }
    }
  }

  lemma MulLe(a: nat, b: nat, f: nat)
    requires a <= b
    ensures a * f <= b * f
  {
  }
}
