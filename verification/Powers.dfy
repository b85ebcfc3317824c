/** Powers of two and masks: the widths of registers, the sizes of windows, and alignments. */
module Powers {

  function Pow2(k: nat): (p: nat)
    ensures p >= 1
  {
    if k == 0 then 1 else 2 * Pow2(k - 1)
  }

  /** A k-bit register holds k. */
  lemma {:induction false} BelowPow2(k: nat)
    ensures k < Pow2(k)
  {
    if k > 0 {
      BelowPow2(k - 1);
    }
  }

  lemma Quotient(d: nat, y: nat, q: nat, m: nat)
    requires d > 0 && m < d && y == d * q + m
    ensures y % d == m
  {
    var q', m' := y / d, y % d;
    assert d * q' + m' == d * q + m;
    if q' < q {
      Times(d, q - q');
    } else if q < q' {
      Times(d, q' - q);
    }
  }

  lemma Times(d: nat, k: nat)
    requires k >= 1
    ensures d * k >= d
  {
  }

  /** x & y. */
  function And(x: nat, y: nat): (z: nat)
    ensures z <= x && z <= y
  {
    if x == 0 || y == 0 then 0 else 2 * And(x / 2, y / 2) + (if x % 2 == 1 && y % 2 == 1 then 1 else 0)
  }

  lemma ModTwice(x: nat, p: nat)
    requires p >= 1
    ensures x % (2 * p) == 2 * (x / 2 % p) + x % 2
  {
    var q, m := x / 2 / p, x / 2 % p;
    assert x == 2 * (p * q + m) + x % 2;
    assert 2 * (p * q + m) == 2 * p * q + 2 * m;
    Quotient(2 * p, x, q, 2 * m + x % 2);
  }

  lemma AndOdd(x: nat, p: nat)
    requires p >= 1
    ensures And(x, 2 * p - 1) == 2 * And(x / 2, p - 1) + x % 2
  {
  }

  lemma PowStep(k: nat)
    ensures Pow2(k) == if k == 0 then 1 else 2 * Pow2(k - 1)
  {
  }

  lemma AndNothing(x: nat)
    ensures And(x, 0) == 0
  {
  }

  /** For a power of two the mask is the remainder. */
  lemma {:induction false} MaskIsMod(x: nat, k: nat)
    ensures And(x, Pow2(k) - 1) == x % Pow2(k)
  {
    hide *;
    PowStep(k);
    if k > 0 {
      MaskIsMod(x / 2, k - 1);
      var p := Pow2(k - 1);
      ModTwice(x, p);
      AndOdd(x, p);
    } else {
      AndNothing(x);
    }
  }

  /** Bit k of a number. */
  predicate Bit(x: nat, k: nat) {
    x / Pow2(k) % 2 == 1
  }

  lemma BitOfHalf(x: nat, k: nat)
    ensures Bit(x, k + 1) == Bit(x / 2, k)
  {
    var p := Pow2(k);
    var q, m := x / 2 / p, x / 2 % p;
    assert x == 2 * (p * q + m) + x % 2;
    assert 2 * (p * q + m) == 2 * p * q + 2 * m;
    QuotientIs(2 * p, x, q, 2 * m + x % 2);
  }

  lemma QuotientIs(d: nat, y: nat, q: nat, m: nat)
    requires d > 0 && m < d && y == d * q + m
    ensures y / d == q
  {
    Quotient(d, y, q, m);
    assert d * (y / d) == d * q;
    if y / d != q {
      Times(d, if y / d < q then q - y / d else y / d - q);
    }
  }

  lemma AndParts(x: nat, y: nat)
    ensures And(x, y) / 2 == And(x / 2, y / 2)
    ensures And(x, y) % 2 == 1 <==> x % 2 == 1 && y % 2 == 1
  {
  }

  /** The mask keeps the bits that both have. */
  lemma {:induction false} AndBits(x: nat, y: nat, k: nat)
    ensures Bit(And(x, y), k) <==> Bit(x, k) && Bit(y, k)
  {
    AndParts(x, y);
    if k > 0 {
      AndBits(x / 2, y / 2, k - 1);
      hide And, Bit;
      BitOfHalf(x, k - 1);
      BitOfHalf(y, k - 1);
      BitOfHalf(And(x, y), k - 1);
    }
  }
}
