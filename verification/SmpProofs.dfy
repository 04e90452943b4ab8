/** Completeness of the four proofs and what the two final comparisons decide. */
module SmpProofs {
  import opened Prelude
  import opened Schnorr
  import opened Smp
  import opened Zq

  lemma HonestMessage1(q: nat, hash: Hash, question: Option<seq<nat>>, k: Coins)
    requires q > 1
    ensures Valid1(q, hash, MakeMessage1(q, hash, question, k))
  {
    var m := MakeMessage1(q, hash, question, k);
    AnswerRecommits(q, 1, m.g2a, k.x2, k.r2, m.c2);
    AnswerRecommits(q, 1, m.g3a, k.x3, k.r3, m.c3);
  }

  /** Both sides derive the same generator from each other's share. */
  lemma SharedGenerator(q: nat, a: nat, b: nat)
    requires q > 1
    ensures Mul(q, Mul(q, 1, b), a) == Mul(q, Mul(q, 1, a), b)
    ensures Cong(q, Mul(q, Mul(q, 1, a), b), a * b)
  {
    CongMul(q, Mul(q, 1, a), a, b, b);
    CongMulTo(q, Mul(q, 1, b), b, a, a, a * b);
  }

  lemma BlindCong(q: nat, g2: nat, g: int, r: nat, s: nat, u: int)
    requires q > 1 && Cong(q, g2, g) && u == g * s
    ensures Cong(q, Blind(q, g2, r, s), r + u)
  {
    CongMulTo(q, g2, g, s, s, u);
    CongAdd(q, Mul(q, 1, r), r, Mul(q, g2, s), u);
  }

  /** The two-generator answer recomputes the two-generator commitment. */
  lemma PairRecommits(q: nat, g2: nat, r4: nat, s: nat, r5: nat, r6: nat, c: nat)
    requires q > 1
    ensures Reblind(q, g2, Blind(q, g2, r4, s), c, Answer(q, r5, r4, c), Answer(q, r6, s, c))
            == Blind(q, g2, r5, r6)
  {
    var u, v, w, p := g2 * s, r4 * c, s * c, g2 * r6;
    BlindCong(q, g2, g2, r4, s, u);
    BlindCong(q, g2, g2, r5, r6, p);
    AnswerCong(q, r5, r4, c, v);
    AnswerCong(q, r6, s, c, w);
    Associate(g2, s, c, u, w);
    Distribute(g2, r6, w);
    Distribute(c, r4, u);
    assert (r4 + u) * c == v + u * c;
    RecommitCong(q, g2, Blind(q, g2, r4, s), c, Answer(q, r6, s, c), g2, r4 + u, r6 - w, v + u * c, p - g2 * w);
    CongAdd(q, Recommit(q, g2, Blind(q, g2, r4, s), c, Answer(q, r6, s, c)), v + u * c + (p - g2 * w),
            Mul(q, 1, Answer(q, r5, r4, c)), r5 - v);
    assert v + u * c + (p - g2 * w) + (r5 - v) == r5 + p;
  }

  lemma HonestMessage2(q: nat, hash: Hash, secret: nat, g2: nat, g3: nat, k: Coins)
    requires q > 1
    ensures Valid2(q, hash, g2, g3, MakeMessage2(q, hash, secret, g2, g3, k))
  {
    var m := MakeMessage2(q, hash, secret, g2, g3, k);
    AnswerRecommits(q, 1, m.g2b, k.x2, k.r2, m.c2);
    AnswerRecommits(q, 1, m.g3b, k.x3, k.r3, m.c3);
    AnswerRecommits(q, g3, m.pb, k.r4, k.r5, m.cp);
    PairRecommits(q, g2, k.r4, Mod(q, secret), k.r5, k.r6, m.cp);
  }

  lemma HonestMessage3(q: nat, hash: Hash, secret: nat, a3: nat, g2: nat, g3: nat, m2: Message2, k: Coins)
    requires q > 1
    ensures Valid3(q, hash, g2, g3, Mul(q, 1, a3), m2.qb, MakeMessage3(q, hash, secret, a3, g2, g3, m2, k))
  {
    var m := MakeMessage3(q, hash, secret, a3, g2, g3, m2, k);
    AnswerRecommits(q, g3, m.pa, k.r4, k.r5, m.cp);
    PairRecommits(q, g2, k.r4, Mod(q, secret), k.r5, k.r6, m.cp);
    AnswerRecommits(q, 1, Mul(q, 1, a3), a3, k.r7, m.cr);
    AnswerRecommits(q, Sub(q, m.qa, m2.qb), m.ra, a3, k.r7, m.cr);
  }

  lemma HonestMessage4(q: nat, hash: Hash, b3: nat, qb: nat, m3: Message3, k: Coins)
    requires q > 1
    ensures Valid4(q, hash, Mul(q, 1, b3), Sub(q, m3.qa, qb), MakeMessage4(q, hash, b3, qb, m3, k))
  {
    var m := MakeMessage4(q, hash, b3, qb, m3, k);
    AnswerRecommits(q, 1, Mul(q, 1, b3), b3, k.r7, m.cr);
    AnswerRecommits(q, Sub(q, m3.qa, qb), m.rb, b3, k.r7, m.cr);
  }

  // ------------------------------------------------------------- the verdict

  /** Qa - Qb is the difference of the blinding scalars plus u, which stands for G2 * (x - y). */
  lemma QDifference(q: nat, g2: nat, s4: nat, x: nat, r4: nat, y: nat, delta: int) returns (u: int)
    requires q > 1 && delta == s4 - r4
    ensures Cong(q, Sub(q, Blind(q, g2, s4, x), Blind(q, g2, r4, y)), delta + u)
    ensures Cong(q, Mul(q, g2, Sub(q, x, y)), u)
  {
    BlindCong(q, g2, g2, s4, x, g2 * x);
    BlindCong(q, g2, g2, r4, y, g2 * y);
    Distribute(g2, x, y);
    CongSub(q, Blind(q, g2, s4, x), s4 + g2 * x, Blind(q, g2, r4, y), r4 + g2 * y);
    CongSub(q, x, x, y, y);
    u := g2 * (x - y);
    CongMulTo(q, g2, g2, Sub(q, x, y), x - y, u);
  }

  /** Pa - Pb. */
  lemma PDifference(q: nat, g3: nat, s4: nat, r4: nat, delta: int, p: int)
    requires q > 1 && delta == s4 - r4 && p == g3 * delta
    ensures Cong(q, Sub(q, Mul(q, g3, s4), Mul(q, g3, r4)), p)
  {
    Distribute(g3, s4, r4);
    CongSub(q, Mul(q, g3, s4), g3 * s4, Mul(q, g3, r4), g3 * r4);
  }

  /** Multiplying Qa - Qb by both private exponents is multiplying it by G3. */
  lemma BothExponents(q: nat, d: nat, a3: nat, b3: nat, g3: nat, e: int, u: int)
    requires q > 1 && Cong(q, d, e) && Cong(q, g3, a3 * b3) && u == g3 * e
    ensures Cong(q, Mul(q, Mul(q, d, a3), b3), u)
  {
    var p, v := a3 * b3, e * a3;
    CongMulTo(q, d, e, a3, a3, v);
    CongMulTo(q, Mul(q, d, a3), v, b3, b3, v * b3);
    Associate(e, a3, b3, v, p);
    CongMulTo(q, g3, p, e, e, e * p);
  }

  /** With Pa - Pb = G3 * delta and Qa - Qb = delta + z, the comparison holds when G3 * z vanishes. */
  lemma ComparisonIs(q: nat, pd: nat, d: nat, z: nat, g3: nat, delta: int, u: int, first: nat, second: nat)
    requires q > 1 && pd < q && Cong(q, g3, first * second)
    requires Cong(q, pd, g3 * delta) && Cong(q, d, delta + u) && Cong(q, z, u)
    ensures pd == Mul(q, Mul(q, d, first), second) <==> Mul(q, g3, z) == 0
  {
    var p, w := g3 * delta, g3 * u;
    Distribute(g3, delta, u);
    BothExponents(q, d, first, second, g3, delta + u, p + w);
    CongMulTo(q, g3, g3, z, u, w);
    var rab := Mul(q, Mul(q, d, first), second);
    CongSub(q, rab, p + w, pd, p);
    SubZero(q, rab, pd);
  }

  /** One final comparison of honest values, the exponents being applied in either order. */
  lemma Comparison(q: nat, g2: nat, g3: nat, s: nat, t: nat, ra: nat, rb: nat, first: nat, second: nat)
    requires q > 1 && Cong(q, g3, first * second)
    ensures Sub(q, Mul(q, g3, ra), Mul(q, g3, rb))
            == Mul(q, Mul(q, Sub(q, Blind(q, g2, ra, s), Blind(q, g2, rb, t)), first), second)
            <==> Mul(q, g3, Mul(q, g2, Sub(q, s, t))) == 0
  {
    var delta: int := (ra as int) - rb;
    var u := QDifference(q, g2, ra, s, rb, t, delta);
    PDifference(q, g3, ra, rb, delta, g3 * delta);
    ComparisonIs(q, Sub(q, Mul(q, g3, ra), Mul(q, g3, rb)), Sub(q, Blind(q, g2, ra, s), Blind(q, g2, rb, t)),
                 Mul(q, g2, Sub(q, s, t)), g3, delta, u, first, second);
  }

  /** When the two sides of the final comparison are equal although the proofs are honest. */
  predicate Indistinguishable(q: nat, x: nat, y: nat, a2: nat, a3: nat, b2: nat, b3: nat)
    requires q > 1
  {
    Cong(q, x, y) || Mod(q, a2) == 0 || Mod(q, a3) == 0 || Mod(q, b2) == 0 || Mod(q, b3) == 0
  }

  lemma GeneratorZero(q: nat, a: nat, b: nat)
    requires Prime(q)
    ensures Mul(q, Mul(q, 1, a), b) == 0 <==> Mod(q, a) == 0 || Mod(q, b) == 0
  {
    CongMul(q, Mod(q, a), a, Mod(q, b), b);
    CongMul(q, Mul(q, 1, a), a, b, b);
    NoZeroDivisors(q, Mod(q, a), Mod(q, b));
  }

  /** The generator both sides share, computed from the share of one. */
  function Shared(q: nat, a: nat, b: nat): nat
    requires q > 1
  {
    Mul(q, Mul(q, 1, a), b)
  }

  lemma VanishesIff(q: nat, x: nat, y: nat, a2: nat, a3: nat, b2: nat, b3: nat)
    requires Prime(q) && x < q && y < q
    ensures Mul(q, Shared(q, a3, b3), Mul(q, Shared(q, a2, b2), Sub(q, x, y))) == 0
            <==> Indistinguishable(q, x, y, a2, a3, b2, b3)
  {
    var g2, g3 := Shared(q, a2, b2), Shared(q, a3, b3);
    NoZeroDivisors(q, g3, Mul(q, g2, Sub(q, x, y)));
    NoZeroDivisors(q, g2, Sub(q, x, y));
    GeneratorZero(q, a2, b2);
    GeneratorZero(q, a3, b3);
    SubZero(q, x, y);
  }

  lemma SharedCong(q: nat, a: nat, b: nat)
    requires q > 1
    ensures Cong(q, Shared(q, a, b), a * b) && Cong(q, Shared(q, a, b), b * a)
  {
    SharedGenerator(q, a, b);
  }

  /** An honest final comparison, in either order of the exponents, decides equality. */
  lemma ComparisonDecides(q: nat, a2: nat, a3: nat, b2: nat, b3: nat, s: nat, t: nat, ra: nat, rb: nat,
                          g2: nat, g3: nat, pd: nat, d: nat, first: nat, second: nat)
    requires Prime(q) && s < q && t < q
    requires g2 == Shared(q, a2, b2) && g3 == Shared(q, a3, b3)
    requires (first == a3 && second == b3) || (first == b3 && second == a3)
    requires pd == Sub(q, Mul(q, g3, ra), Mul(q, g3, rb))
    requires d == Sub(q, Blind(q, g2, ra, s), Blind(q, g2, rb, t))
    ensures pd == Mul(q, Mul(q, d, first), second) <==> Indistinguishable(q, s, t, a2, a3, b2, b3)
  {
    SharedCong(q, a3, b3);
    Comparison(q, g2, g3, s, t, ra, rb, first, second);
    VanishesIff(q, s, t, a2, a3, b2, b3);
  }
}
