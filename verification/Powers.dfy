/** Powers of two and division with remainder. */
module Powers {

  function Pow2(n: nat): (p: nat)
    ensures p >= 1
  {
    if n == 0 then 1 else 2 * Pow2(n - 1)
  }

  lemma {:induction false} Unroll(m: nat)
    ensures Pow2(m + 8) == 256 * Pow2(m)
  {
    assert Pow2(m + 8) == 2 * Pow2(m + 7) == 4 * Pow2(m + 6) == 8 * Pow2(m + 5) == 16 * Pow2(m + 4);
    assert Pow2(m + 4) == 2 * Pow2(m + 3) == 4 * Pow2(m + 2) == 8 * Pow2(m + 1) == 16 * Pow2(m);
  }

  lemma {:induction false} PowStep(k: nat)
    ensures Pow2(8 * (k + 1)) == 256 * Pow2(8 * k)
  {
    Unroll(8 * k);
  }

  lemma {:induction false} PowDivides(n: nat, m: nat)
    requires n <= m
    ensures Pow2(m) == Pow2(m - n) * Pow2(n)
    decreases m
  {
    if n < m {
      PowDivides(n, m - 1);
      assert Pow2(m) == 2 * Pow2(m - 1) && Pow2(m - n) == 2 * Pow2(m - 1 - n);
      hide Pow2;
      Assoc(2, Pow2(m - 1 - n), Pow2(n));
    }
  }

  lemma {:induction false} Multiples(d: int, p: nat)
    ensures d >= 1 ==> d * p >= p
    ensures d <= -1 ==> d * p <= 0 - p
    ensures d == 0 ==> d * p == 0
  {
    assert d >= 1 ==> (d - 1) * p >= 0;
    assert d <= -1 ==> (d + 1) * p <= 0;
  }

  lemma {:induction false} Decompose(k: nat, p: nat, r: nat)
    requires r < p
    ensures (k * p + r) / p == k && (k * p + r) % p == r
  {
    var x := k * p + r;
    assert x == (x / p) * p + x % p;
    assert (x / p - k) * p == r - x % p;
    Multiples(x / p - k, p);
  }

  lemma {:induction false} Pow48()
    ensures Pow2(48) == 0x1_0000_0000_0000 && Pow2(0) == 1
  {
    PowStep(0);
    PowStep(1);
    PowStep(2);
    PowStep(3);
    PowStep(4);
    PowStep(5);
  }

  lemma {:induction false} Assoc(a: int, b: int, c: int)
    ensures (a * b) * c == a * (b * c)
  {
  }

  lemma {:induction false} Distrib(a: int, b: int, c: int)
    ensures (a + b) * c == a * c + b * c
  {
  }

  lemma {:induction false} DivMod(x: nat, p: nat)
    requires p > 0
    ensures x == (x / p) * p + x % p && 0 <= x % p < p
  {
  }

  lemma {:induction false} PowAdd(a: nat, b: nat)
    ensures Pow2(a + b) == Pow2(a) * Pow2(b)
  {
    PowDivides(b, a + b);
  }

  /** `t` whole units below `q`, and a part of one, stay below `q` units. */
  lemma {:induction false} Below(t: int, q: int, p: nat, r: nat)
    requires t < q && r < p
    ensures t * p + r < q * p
  {
    Multiples(q - t, p);
    Distrib(q - t, t, p);
  }
}
