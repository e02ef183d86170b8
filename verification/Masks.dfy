/** Bitwise and, bit by bit, and what masking with the top bits of a word does. */
module Masks {
  import opened Word

  /** x & y on naturals, lowest bit first. */
  function And(x: nat, y: nat): (r: nat)
    ensures r <= x && r <= y
  {
    if x == 0 || y == 0 then 0
    else (if x % 2 == 1 && y % 2 == 1 then 1 else 0) + 2 * And(x / 2, y / 2)
  }

  /** ~x on 64 bits. */
  function Not(x: u64): u64 {
    TWO_64 - 1 - x
  }

  function Pow2(k: nat): nat
    ensures 0 < Pow2(k)
  {
    if k == 0 then 1 else 2 * Pow2(k - 1)
  }

  lemma {:induction false} Pow2Monotone(k: nat, w: nat)
    requires k <= w
    ensures Pow2(k) <= Pow2(w)
    ensures Pow2(w) % Pow2(k) == 0
    decreases w
  {
    if k < w {
      Pow2Monotone(k, w - 1);
      ModTwice(Pow2(w - 1), Pow2(k));
    }
  }

  lemma ModTwice(a: nat, m: nat)
    requires 0 < m && a % m == 0
    ensures (2 * a) % m == 0
  {
    var q := a / m;
    assert a == m * q;
    assert 2 * a == m * (2 * q);
    MultipleMod(2 * q, m);
  }

  lemma {:induction false} MultipleMod(q: nat, m: nat)
    requires 0 < m
    ensures (m * q) % m == 0
  {
    if q != 0 {
      MultipleMod(q - 1, m);
      assert m * q == m * (q - 1) + m;
      AddModulus(m * (q - 1), m);
    }
  }

  lemma AddModulus(a: nat, m: nat)
    requires 0 < m
    ensures (a + m) % m == a % m
  {
    var q, r := a / m, a % m;
    assert a + m == m * (q + 1) + r;
    ModUnique(a + m, m, q + 1, r);
  }

  lemma ModUnique(a: nat, m: nat, q: nat, r: nat)
    requires 0 < m && r < m && a == m * q + r
    ensures a % m == r && a / m == q
  {
    var q', r' := a / m, a % m;
    assert m * q' + r' == m * q + r;
    Distribute(m, q, q');
    SmallMultiple(m, q - q', r' - r);
  }

  lemma Distribute(m: int, x: int, y: int)
    ensures m * (x - y) == m * x - m * y
  {
  }

  lemma SmallMultiple(m: int, d: int, t: int)
    requires m * d == t && -m < t < m
    ensures d == 0
  {
    if 1 <= d {
      AtLeastOnce(m, d);
    }
  }

  lemma AtLeastOnce(m: nat, d: nat)
    requires 1 <= d
    ensures m <= m * d
  {
    Distribute(m, d, 1);
    assert 0 <= m * (d - 1);
  }

  /** Halving a number halves what is left over of an even modulus. */
  lemma HalveMod(x: nat, m: nat)
    requires 0 < m
    ensures x % (2 * m) == 2 * ((x / 2) % m) + x % 2
  {
    var h := x / 2;
    var q, r := h / m, h % m;
    assert h == m * q + r;
    assert x == (2 * m) * q + (2 * r + x % 2);
    ModUnique(x, 2 * m, q, 2 * r + x % 2);
  }

  /** Masking a w-bit number with ones from bit k up clears exactly what lies below bit k. */
  lemma {:induction false} MaskClearsLow(x: nat, k: nat, w: nat)
    requires k <= w && x < Pow2(w)
    ensures Pow2(k) <= Pow2(w)
    ensures And(x, Pow2(w) - Pow2(k)) == x - x % Pow2(k)
    decreases w
  {
    Pow2Monotone(k, w);
    var y := Pow2(w) - Pow2(k);
    if w == 0 {
    } else if k == 0 {
      AllOnes(x, w);
    } else {
      assert y % 2 == 0 && y / 2 == Pow2(w - 1) - Pow2(k - 1);
      MaskClearsLow(x / 2, k - 1, w - 1);
      HalveMod(x, Pow2(k - 1));
      if k < w {
        Pow2Strict(k, w);
      }
    }
  }

  lemma Pow2Strict(k: nat, w: nat)
    requires k < w
    ensures Pow2(k) < Pow2(w)
  {
    Pow2Monotone(k, w - 1);
  }

  lemma {:induction false} AllOnes(x: nat, w: nat)
    requires x < Pow2(w)
    ensures And(x, Pow2(w) - 1) == x
    decreases w
  {
    if x != 0 {
      var y := Pow2(w) - 1;
      assert y % 2 == 1 && y / 2 == Pow2(w - 1) - 1;
      AllOnes(x / 2, w - 1);
    }
  }
}
