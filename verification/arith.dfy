/// Division and powers, shared by the encoders and the calendar.
module Arith {

  function Pow(base: nat, n: nat): (p: nat)
    ensures base > 0 ==> p > 0
  {
    if n == 0 then 1 else base * Pow(base, n - 1)
  }

  lemma Distribute(x: int, y: int, z: int)
    ensures (x + y) * z == x * z + y * z
  {
  }

  lemma Associate(x: int, y: int, z: int)
    ensures (x * y) * z == x * (y * z)
  {
  }

  lemma {:induction false} ScaleGap(x: int, y: int, p: nat)
    requires x < y
    ensures x * p + p <= y * p
    decreases y - x
  {
    Distribute(y - 1, 1, p);
    if x < y - 1 {
      ScaleGap(x, y - 1, p);
    }
  }

  /** Quotient and remainder are determined by the division equation. */
  lemma DivisionIs(x: int, q: int, d: nat, r: nat)
    requires x == q * d + r && r < d
    ensures x / d == q && x % d == r
  {
    var q', r' := x / d, x % d;
    assert x == q' * d + r';
    if q' < q {
      ScaleGap(q', q, d);
    } else if q < q' {
      ScaleGap(q, q', d);
    }
  }

  lemma DivDiv(x: int, b: nat, c: nat)
    requires b > 0 && c > 0
    ensures b * c > 0 && x / b / c == x / (b * c)
  {
    var y, r := x / b, x % b;
    var z, s := y / c, y % c;
    assert x == b * y + r && y == c * z + s;
    ScaleGap(s, c, b);
    assert b * (c * z) == z * (b * c);
    assert b * y == b * (c * z) + b * s by { Distribute(c * z, s, b); }
    assert b * c > 0;
    DivisionIs(x, z, b * c, b * s + r);
  }

  /** Reducing modulo a multiple of `p` leaves the next digits above `p` alone. */
  lemma ModDiv(x: int, p: nat, d: nat)
    requires p > 0 && d > 0
    ensures p * d > 0 && x % (p * d) / p == x / p % d
  {
    DivDiv(x, p, d);
    var y, r := x / p, x % p;
    var z, s := y / d, y % d;
    assert x == p * y + r && y == d * z + s;
    ScaleGap(s, d, p);
    assert p * y == p * (d * z) + p * s by { Distribute(d * z, s, p); }
    assert p * (d * z) == z * (p * d);
    DivisionIs(x, z, p * d, p * s + r);
    DivisionIs(p * s + r, s, p, r);
  }

  lemma AddMultiple(m: int, y: int, d: nat)
    requires d > 0
    ensures (m * d + y) % d == y % d
    ensures (m * d + y) / d == m + y / d
  {
    Distribute(m, y / d, d);
    DivisionIs(m * d + y, m + y / d, d, y % d);
  }

  lemma ModMod(x: int, c: nat, d: nat)
    requires c > 0 && d > 0
    ensures c * d > 0 && x % (c * d) % d == x % d
  {
    var y, r := x / (c * d), x % (c * d);
    assert c * d > 0;
    assert x == (c * d) * y + r;
    assert (c * d) * y == (c * y) * d;
    var z, s := r / d, r % d;
    assert r == z * d + s;
    Distribute(c * y, z, d);
    DivisionIs(x, c * y + z, d, s);
  }

  lemma {:induction false} PowAdd(base: nat, m: nat, n: nat)
    ensures Pow(base, m + n) == Pow(base, m) * Pow(base, n)
  {
    if m == 0 {
    } else {
      PowAdd(base, m - 1, n);
      Associate(base, Pow(base, m - 1), Pow(base, n));
    }
  }
}
