/** The range of an unsigned int, and division and remainder by a number that is not a constant. */
module Arith {

  const UINT: nat := 0x1_0000_0000

  lemma MulMono(d: nat, a: int, b: int)
    requires a <= b
    ensures d * a <= d * b
  {
  }

  lemma DivNonNegative(x: nat, d: nat)
    requires 0 < d
    ensures 0 <= x / d
  {
  }

  lemma ModLess(x: nat, d: nat)
    requires 0 < d
    ensures 0 <= x % d < d
  {
  }

  lemma DivLess(x: nat, d: nat, q: nat)
    requires 0 < d && x < d * q
    ensures 0 <= x / d < q
  {
    var k := x / d;
    assert x == d * k + x % d;
    if k >= q { MulMono(d, q, k); assert false; }
  }

  lemma DivLessIff(x: nat, d: nat, q: nat)
    requires 0 < d
    ensures x / d < q <==> x < d * q
  {
    if x < d * q { DivLess(x, d, q); }
    if x / d < q {
      DivModIs(x, d);
      MulMono(d, x / d + 1, q);
    }
  }

  lemma DivModIs(b: nat, d: nat)
    requires 0 < d
    ensures b == d * (b / d) + b % d
  {
  }

  lemma SameDivMod(a: nat, b: nat, d: nat)
    requires 0 < d && a / d == b / d && a % d == b % d
    ensures a == b
  {
    assert a == d * (a / d) + a % d;
    assert b == d * (b / d) + b % d;
  }

  lemma DivModUnique(x: nat, d: nat, q: nat, r: nat)
    requires 0 < d && x == d * q + r && r < d
    ensures x / d == q && x % d == r
  {
    var k := x / d - q;
    assert d * (x / d) - d * q == d * k;
    assert x == d * (x / d) + x % d;
    if k > 0 { MulMono(d, 1, k); assert false; }
    if k < 0 { MulMono(d, k, -1); assert false; }
  }

  lemma Assoc(a: nat, b: nat, c: nat)
    ensures a * b * c == a * (b * c)
  {
  }

  lemma {:induction false} ModAddMultiple(r: nat, m: nat, d: nat)
    requires 0 < d
    ensures (d * m + r) % d == r % d
  {
    var s := d * m + r;
    assert s == d * (s / d) + s % d;
    assert r == d * (r / d) + r % d;
    var k := s / d - r / d - m;
    assert d * k == r % d - s % d by {
      assert d * (s / d - r / d - m) == d * (s / d) - d * (r / d) - d * m;
    }
    if k > 0 { MulMono(d, 1, k); assert false; }
    if k < 0 { MulMono(d, k, -1); assert false; }
  }
}
