/**
 Powers of two and remainders: the few facts behind `pos & (capacity - 1)`,
 `hash & mask` and counters that wrap.
 */
module Arithmetic {

  /** True for 1, 2, 4, 8, ...: the test `v != 0 && (v & (v - 1)) == 0` of the C code. */
  predicate IsPow2(v: nat) {
    v == 1 || (v > 1 && v % 2 == 0 && IsPow2(v / 2))
  }

  /** `pos % size`: the cell of a position in circular storage, the bucket of a hash, how far a position is ahead. */
  function Slot(pos: int, size: nat): (k: nat)
    requires size > 0
    ensures k < size
  {
    pos % size
  }

  lemma {:induction false} Pow2Divides(a: nat, b: nat)
    requires IsPow2(a) && IsPow2(b) && a <= b
    ensures b % a == 0
  {
    if a == 1 {
    } else {
      var h, c := a / 2, b / 2;
      Pow2Divides(h, c);
      DoubleDivides(h, c);
    }
  }

  lemma DoubleDivides(h: nat, c: nat)
    requires h > 0 && c % h == 0
    ensures (2 * c) % (2 * h) == 0
  {
    var q := c / h;
    assert c == q * h;
    assert 2 * c == q * (2 * h);
    MultipleMod(q, 2 * h);
  }

  lemma TwiceProduct(h: nat, b: nat)
    ensures (2 * h) * b == 2 * (h * b)
  {
  }

  lemma Pow2Twice(c: nat)
    requires IsPow2(c)
    ensures IsPow2(2 * c)
  {
  }

  lemma {:induction false} Pow2Product(a: nat, b: nat)
    requires IsPow2(a) && IsPow2(b)
    ensures a * b > 0 && IsPow2(a * b)
  {
    if a > 1 {
      var h := a / 2;
      Pow2Product(h, b);
      TwiceProduct(h, b);
      Pow2Twice(h * b);
    }
  }

  lemma MultipleMod(q: nat, m: nat)
    requires m > 0
    ensures (q * m) % m == 0 && (m * q) % m == 0
  {
    ModUnique(q * m, m, q, 0);
  }

  /** The remainder is the only r in [0, m) with x == q * m + r. */
  lemma ModUnique(x: int, m: nat, q: int, r: int)
    requires 0 <= r < m
    requires x == q * m + r
    ensures x % m == r && x / m == q
  {
    var q', r' := x / m, x % m;
    assert x == q' * m + r' && 0 <= r' < m;
    var d := q - q';
    assert d * m == r' - r;
    if d >= 1 {
      assert d * m >= m by { MulMono(1, d, m); }
    } else if d <= -1 {
      assert (-d) * m >= m by { MulMono(1, -d, m); }
    }
  }

  lemma MulMono(a: int, b: int, m: nat)
    requires a <= b
    ensures a * m <= b * m
  {
    assert (b - a) * m >= 0;
  }

  lemma ModMod(x: nat, m: nat, n: nat)
    requires n > 0 && m > 0 && m % n == 0
    ensures (x % m) % n == x % n
  {
    var q, k := x / m, m / n;
    assert m == k * n;
    var r := (x % m) % n;
    var s := (x % m) / n;
    assert x == q * m + (x % m);
    assert x % m == s * n + r;
    assert q * m == (q * k) * n;
    assert x == (q * k + s) * n + r;
    ModUnique(x, n, q * k + s, r);
  }

  lemma AddMod(x: nat, y: nat, m: nat)
    requires m > 0
    ensures (x + y) % m == (x % m + y % m) % m
  {
    var q := x / m + y / m;
    var z := x % m + y % m;
    assert x + y == q * m + z;
    assert z == (z / m) * m + z % m;
    assert x + y == (q + z / m) * m + z % m;
    ModUnique(x + y, m, q + z / m, z % m);
  }

  /** Two positions less than m apart are congruent only when equal; the later one wraps at most once. */
  lemma ModWindow(a: nat, b: nat, m: nat)
    requires m > 0 && a <= b < a + m
    ensures b % m == a % m + (b - a) || b % m == a % m + (b - a) - m
  {
    var q := a / m;
    var r := a % m + (b - a);
    assert b == q * m + r;
    if r < m {
      ModUnique(b, m, q, r);
    } else {
      assert b == (q + 1) * m + (r - m);
      ModUnique(b, m, q + 1, r - m);
    }
  }

  /** Unsigned subtraction that wraps at m gives back the true difference. */
  lemma WrappedDifference(a: nat, b: nat, m: nat)
    requires m > 0 && b <= a < b + m
    ensures (a % m - b % m) % m == a - b
  {
    ModWindow(b, a, m);
    var d := a % m - b % m;
    if d == a - b {
      ModUnique(d, m, 0, a - b);
    } else {
      ModUnique(d, m, -1, a - b);
    }
  }
}
