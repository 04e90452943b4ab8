/**
 The step every proof of knowledge here shares: for a public value x = base * secret and a
 commitment base * r, the answer d = r - secret * c to a challenge c satisfies
 x * c + base * d = base * r.
 */
module Schnorr {
  import opened Zq

  function Answer(q: nat, r: nat, secret: nat, c: nat): nat
    requires q > 1
  {
    Sub(q, r, Mul(q, secret, c))
  }

  /** The verifier's side: x * c + base * d. */
  function Recommit(q: nat, base: nat, x: nat, c: nat, d: nat): nat
    requires q > 1
  {
    Add(q, Mul(q, x, c), Mul(q, base, d))
  }

  /** What a recomputed commitment stands for, the base being b and the public value e. */
  lemma RecommitCong(q: nat, base: nat, x: nat, c: nat, d: nat, b: int, e: int, f: int, u: int, v: int)
    requires q > 1 && Cong(q, base, b) && Cong(q, x, e) && Cong(q, d, f)
    requires u == e * c && v == b * f
    ensures Cong(q, Recommit(q, base, x, c, d), u + v)
  {
    CongMulTo(q, x, e, c, c, u);
    CongMulTo(q, base, b, d, f, v);
    CongAdd(q, Mul(q, x, c), u, Mul(q, base, d), v);
  }

  lemma AnswerCong(q: nat, r: nat, secret: nat, c: nat, p: int)
    requires q > 1 && p == secret * c
    ensures Cong(q, Answer(q, r, secret, c), r - p)
  {
    CongMulTo(q, secret, secret, c, c, p);
    CongSub(q, r, r, Mul(q, secret, c), p);
  }

  /** An honest answer recomputes the commitment, for every challenge. */
  lemma AnswerRecommits(q: nat, base: nat, x: nat, secret: nat, r: nat, c: nat)
    requires q > 1 && Cong(q, x, base * secret)
    ensures Recommit(q, base, x, c, Answer(q, r, secret, c)) == Mul(q, base, r)
  {
    var p := secret * c;
    AnswerCong(q, r, secret, c, p);
    Associate(base, secret, c, base * secret, p);
    Distribute(base, r, p);
    RecommitCong(q, base, x, c, Answer(q, r, secret, c), base, base * secret, r - p,
                 base * secret * c, base * (r - p));
  }

  // -------------------------------------------------------- two answers extract

  /** The secret that two answers to different challenges give away. */
  function Extract(q: nat, c: nat, r: nat, d: nat, s: nat): nat
    requires Prime(q) && c < q && d < q && c != d
  {
    SubZero(q, c, d);
    Mul(q, Sub(q, s, r), Inverse(q, Sub(q, c, d)))
  }

  lemma KeyTimesDelta(q: nat, a: nat, c: nat, r: nat, d: nat, s: nat)
    requires q > 1 && Cong(q, a * c + r, a * d + s)
    ensures Cong(q, Sub(q, s, r), a * (c - d))
  {
    var u, v := a * c, a * d;
    CongSub(q, u + r, v + s, v + r, v + r);
    Distribute(a, c, d);
    assert (v + s) - (v + r) == s - r;
    assert (u + r) - (v + r) == a * (c - d);
  }

  /** Dividing by delta: a * delta == n gives a == n * inverse(delta). */
  lemma DivideOut(q: nat, a: nat, delta: nat, n: nat)
    requires Prime(q) && a < q && 0 < delta < q && Cong(q, n, a * delta)
    ensures a == Mul(q, n, Inverse(q, delta))
  {
    var inv := Inverse(q, delta);
    var u, v := a * delta, delta * inv;
    InverseIs(q, delta);
    CongMul(q, n, u, inv, inv);
    CongMul(q, a, a, 1, v);
    Associate(a, delta, inv, u, v);
  }

  /** Special soundness: the same commitment answered twice is the discrete logarithm. */
  lemma ExtractIsKey(q: nat, a: nat, c: nat, r: nat, d: nat, s: nat)
    requires Prime(q) && a < q && c < q && d < q && c != d
    requires Recommit(q, 1, a, c, r) == Recommit(q, 1, a, d, s)
    ensures a == Mul(q, 1, Extract(q, c, r, d, s))
  {
    SubZero(q, c, d);
    RecommitCong(q, 1, a, c, r, 1, a, r, a * c, r);
    RecommitCong(q, 1, a, d, s, 1, a, s, a * d, s);
    KeyTimesDelta(q, a, c, r, d, s);
    CongMul(q, a, a, Sub(q, c, d), c - d);
    DivideOut(q, a, Sub(q, c, d), Sub(q, s, r));
  }
}
