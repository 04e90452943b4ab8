/**
 Arithmetic modulo q and, on top of it, the prime-order group realised as the integers
 modulo a prime q with generator 1: a point is the scalar it is a multiple of. Every law
 used elsewhere is proved here.
 */
module Zq {
  predicate Prime(q: nat) {
    q > 1 && forall d | 1 < d < q :: q % d != 0
  }

  /** Only 1 and q divide q. */
  lemma PrimeIs(q: nat)
    ensures Prime(q) <==> q > 1 && forall a: nat, b: nat | a * b == q :: a == 1 || b == 1
  {
    if Prime(q) {
      forall a: nat, b: nat | a * b == q
        ensures a == 1 || b == 1
      {
        Factor(q, a, b);
      }
    } else if q > 1 {
      var d :| 1 < d < q && q % d == 0;
      assert d * (q / d) == q;
      assert q / d != 1;
    }
  }

  lemma Factor(q: nat, a: nat, b: nat)
    requires Prime(q) && a * b == q
    ensures a == 1 || b == 1
  {
    if a > 1 && b > 1 {
      Between(a, b);
      ProductRemainder(a, b, q);
      assert false;
    }
  }

  lemma Between(a: nat, b: nat)
    requires a > 1 && b > 1
    ensures a < a * b
  {
    assert a * b == a + a * (b - 1) && a * (b - 1) >= a * 1;
  }

  lemma ProductRemainder(a: nat, b: nat, q: nat)
    requires a > 0 && q == a * b
    ensures q % a == 0
  {
    var k: int := b - q / a;
    Distribute(a, b, q / a);
    Within(a, k, q % a);
  }

  lemma Within(a: nat, k: int, r: nat)
    requires a * k == r < a
    ensures r == 0
  {
  }

  /** The representative of x below q. */
  function Mod(q: nat, x: int): (r: nat)
    requires q > 1
    ensures r < q
    decreases if x < 0 then q - x else x
  {
    if x < 0 then Mod(q, x + q) else if x < q then x else Mod(q, x - q)
  }

  function Add(q: nat, a: int, b: int): nat requires q > 1 { Mod(q, a + b) }
  function Sub(q: nat, a: int, b: int): nat requires q > 1 { Mod(q, a - b) }
  function Mul(q: nat, a: int, b: int): nat requires q > 1 { Mod(q, a * b) }

  /** x and e are the same element. */
  predicate Cong(q: nat, x: int, e: int)
    requires q > 1
  {
    Mod(q, x) == Mod(q, e)
  }

  // ------------------------------------------------- remainders and multiples

  lemma ModStep(q: nat, x: int)
    requires q > 1
    ensures Mod(q, x + q) == Mod(q, x) && Mod(q, x - q) == Mod(q, x)
  {
  }

  lemma {:induction false} ModShift(q: nat, x: int, k: int)
    requires q > 1
    ensures Cong(q, x + q * k, x)
    decreases if k < 0 then -k else k
  {
    if k > 0 {
      ModShift(q, x, k - 1);
      Distribute(q, k, 1);
      ModStep(q, x + q * (k - 1));
    } else if k < 0 {
      ModShift(q, x, k + 1);
      Distribute(q, k, 1);
      ModStep(q, x + q * (k + 1));
    }
  }

  lemma {:induction false} Multiple(q: nat, x: int) returns (k: int)
    requires q > 1
    ensures x == Mod(q, x) + q * k
    decreases if x < 0 then q - x else x
  {
    if x < 0 {
      k := Multiple(q, x + q);
      assert q * (k - 1) == q * k - q;
      k := k - 1;
    } else if x >= q {
      k := Multiple(q, x - q);
      assert q * (k + 1) == q * k + q;
      k := k + 1;
    } else {
      k := 0;
    }
  }

  /** Congruent integers differ by a multiple of q. */
  lemma Apart(q: nat, x: int, e: int) returns (k: int)
    requires q > 1 && Cong(q, x, e)
    ensures e == x + q * k
  {
    var u := Multiple(q, x);
    var v := Multiple(q, e);
    k := v - u;
    Distribute(q, v, u);
  }

  lemma Distribute(q: int, a: int, b: int)
    ensures q * (a - b) == q * a - q * b && q * (a + b) == q * a + q * b
  {
  }

  lemma Associate(x: int, y: int, z: int, u: int, v: int)
    requires u == x * y && v == y * z
    ensures u * z == x * v
  {
  }

  // --------------------------------------- the operations respect congruence

  lemma CongAdd(q: nat, x: int, e: int, y: int, f: int)
    requires q > 1 && Cong(q, x, e) && Cong(q, y, f)
    ensures Cong(q, Add(q, x, y), e + f)
  {
    var u := Apart(q, x, e);
    var v := Apart(q, y, f);
    Distribute(q, u, v);
    ModShift(q, x + y, u + v);
  }

  lemma CongSub(q: nat, x: int, e: int, y: int, f: int)
    requires q > 1 && Cong(q, x, e) && Cong(q, y, f)
    ensures Cong(q, Sub(q, x, y), e - f)
  {
    var u := Apart(q, x, e);
    var v := Apart(q, y, f);
    Distribute(q, u, v);
    ModShift(q, x - y, u - v);
  }

  lemma ProductApart(q: int, u: int, x: int, v: int, y: int)
    ensures (x + q * u) * (y + q * v) == x * y + q * (u * q * v + u * y + x * v)
  {
    calc {
      (x + q * u) * (y + q * v);
      x * y + x * (q * v) + q * u * y + q * u * (q * v);
      x * y + q * (x * v) + q * (u * y) + q * (u * q * v);
      x * y + q * (u * q * v + u * y + x * v);
    }
  }

  lemma CongMul(q: nat, x: int, e: int, y: int, f: int)
    requires q > 1 && Cong(q, x, e) && Cong(q, y, f)
    ensures Cong(q, Mul(q, x, y), e * f)
  {
    var u := Apart(q, x, e);
    var v := Apart(q, y, f);
    ProductApart(q, u, x, v, y);
    ModShift(q, x * y, u * q * v + u * y + x * v);
  }

  /** CongMul with the product of the representatives under a name of its own. */
  lemma CongMulTo(q: nat, x: int, e: int, y: int, f: int, g: int)
    requires q > 1 && Cong(q, x, e) && Cong(q, y, f) && g == e * f
    ensures Cong(q, Mul(q, x, y), g)
  {
    CongMul(q, x, e, y, f);
  }

  /** Only equal elements have difference zero. */
  lemma SubZero(q: nat, a: nat, b: nat)
    requires q > 1 && a < q && b < q
    ensures Sub(q, a, b) == 0 <==> a == b
  {
    assert a < b ==> Mod(q, a - b) == Mod(q, a - b + q);
  }

  // ------------------------------------------------------------ inverses

  /** The inverse of a modulo the prime q, by descent on q % a. */
  function Inverse(q: nat, a: nat): (r: nat)
    requires Prime(q) && 0 < a < q
    ensures r < q
    decreases a
  {
    if a == 1 then 1 else Mul(q, -(q / a), Inverse(q, q % a))
  }

  lemma InverseStep(q: int, a: int, k: int, r: int, y: int, t: int)
    requires q == a * k + r && r * y == 1 + q * t
    ensures a * (-k * y) == 1 + q * (t - y)
  {
    calc {
      a * (-k * y);
      -(a * k) * y;
      -(q - r) * y;
      r * y - q * y;
      1 + q * t - q * y;
      { Distribute(q, t, y); }
      1 + q * (t - y);
    }
  }

  /** From an inverse of the remainder one of a: q == a * k + r makes a * -k congruent to r. */
  lemma InverseLift(q: nat, a: nat, k: int, r: nat, y: nat)
    requires q > 1 && q == a * k + r && Mul(q, r, y) == 1
    ensures Mul(q, a, Mul(q, -k, y)) == 1
  {
    var m := -k;
    var t := Multiple(q, r * y);
    InverseStep(q, a, k, r, y, t);
    ModShift(q, 1, t - y);
    CongMul(q, a, a, Mul(q, m, y), m * y);
  }

  lemma RemainderPositive(q: nat, a: nat)
    requires Prime(q) && 1 < a < q
    ensures 0 < q % a < a && q == a * (q / a) + q % a
  {
  }

  lemma {:induction false} InverseIs(q: nat, a: nat)
    requires Prime(q) && 0 < a < q
    ensures Mul(q, a, Inverse(q, a)) == 1
    decreases a
  {
    if a > 1 {
      RemainderPositive(q, a);
      var k, r := q / a, q % a;
      InverseIs(q, r);
      InverseLift(q, a, k, r, Inverse(q, r));
    }
  }

  /** A factor with an inverse can be cancelled. */
  lemma CancelInvertible(q: nat, a: nat, i: nat, b: nat)
    requires q > 1 && b < q && Mul(q, a, i) == 1 && Mul(q, a, b) == 0
    ensures b == 0
  {
    var u, v := i * a, a * b;
    CongMul(q, 1, u, b, b);
    CongMul(q, i, i, 0, v);
    Associate(i, a, b, u, v);
  }

  /** A product vanishes only when a factor does. */
  lemma NoZeroDivisors(q: nat, a: nat, b: nat)
    requires Prime(q) && a < q && b < q
    ensures Mul(q, a, b) == 0 <==> a == 0 || b == 0
  {
    if a != 0 && Mul(q, a, b) == 0 {
      InverseIs(q, a);
      CancelInvertible(q, a, Inverse(q, a), b);
    }
  }
}
