/**
 What the verified proofs of the socialist millionaires' protocol show. Two answers to one commitment
 under different challenges, as from a rewound peer, give away what the proof says the peer knows;
 and with that the verdict is about the secret the peer really used, honest or not.
 */
module SmpSoundness {
  import opened Prelude
  import opened Schnorr
  import opened Smp
  import opened SmpProofs
  import opened Zq

  // ----------------------------------------------------- extraction

  lemma MulMul(q: nat, a: nat, b: nat, c: nat)
    requires q > 1
    ensures Mul(q, Mul(q, a, b), c) == Mul(q, a, Mul(q, b, c))
  {
    CongMul(q, Mul(q, a, b), a * b, c, c);
    CongMul(q, a, a, Mul(q, b, c), b * c);
    Associate(a, b, c, a * b, b * c);
  }

  lemma MulOfSub(q: nat, base: nat, s: nat, r: nat, n: nat)
    requires q > 1 && n == Sub(q, Mul(q, base, s), Mul(q, base, r))
    ensures n == Mul(q, base, Sub(q, s, r))
  {
    CongSub(q, Mul(q, base, s), base * s, Mul(q, base, r), base * r);
    CongSub(q, s, s, r, r);
    Distribute(base, s, r);
    CongMulTo(q, base, base, Sub(q, s, r), s - r, base * s - base * r);
  }

  /** p * c + base * r for a known first part: the commitment, up to the name of the second part. */
  lemma SameSum(q: nat, p: nat, c: nat, u: nat, d: nat, v: nat)
    requires q > 1 && Add(q, Mul(q, p, c), u) == Add(q, Mul(q, p, d), v)
    ensures Cong(q, p * c + u, p * d + v)
  {
    CongAdd(q, Mul(q, p, c), p * c, u, u);
    CongAdd(q, Mul(q, p, d), p * d, v, v);
  }

  /** Whatever the second parts are, dividing their difference by that of the challenges gives the public value. */
  lemma Divided(q: nat, p: nat, c: nat, u: nat, d: nat, v: nat)
    requires Prime(q) && p < q && c < q && d < q && c != d
    requires Add(q, Mul(q, p, c), u) == Add(q, Mul(q, p, d), v)
    ensures 0 < Sub(q, c, d) && p == Mul(q, Sub(q, v, u), Inverse(q, Sub(q, c, d)))
  {
    SubZero(q, c, d);
    SameSum(q, p, c, u, d, v);
    KeyTimesDelta(q, p, c, u, d, v);
    CongSub(q, c, c, d, d);
    CongMul(q, p, p, Sub(q, c, d), c - d);
    DivideOut(q, p, Sub(q, c, d), Sub(q, v, u));
  }

  /** To any base. */
  lemma ExtractTo(q: nat, base: nat, p: nat, c: nat, r: nat, d: nat, s: nat)
    requires Prime(q) && p < q && c < q && d < q && c != d
    requires Recommit(q, base, p, c, r) == Recommit(q, base, p, d, s)
    ensures p == Mul(q, base, Extract(q, c, r, d, s))
  {
    Divided(q, p, c, Mul(q, base, r), d, Mul(q, base, s));
    MulOfSub(q, base, s, r, Sub(q, Mul(q, base, s), Mul(q, base, r)));
    MulMul(q, base, Sub(q, s, r), Inverse(q, Sub(q, c, d)));
  }

  lemma TwoParts(q: nat, g2: nat, s6: nat, s5: nat, r6: nat, r5: nat, n: nat)
    requires q > 1
    requires n == Sub(q, Add(q, Mul(q, g2, s6), Mul(q, 1, s5)), Add(q, Mul(q, g2, r6), Mul(q, 1, r5)))
    ensures Cong(q, n, Mul(q, g2, Sub(q, s6, r6)) + Sub(q, s5, r5))
  {
    var x, y, u, v := Mul(q, g2, s6), Mul(q, g2, r6), Mul(q, 1, s5), Mul(q, 1, r5);
    CongAdd(q, x, x, u, s5);
    CongAdd(q, y, y, v, r5);
    CongSub(q, Add(q, x, u), x + s5, Add(q, y, v), y + r5);
    CongSub(q, x, x, y, y);
    CongSub(q, s5, s5, r5, r5);
    MulOfSub(q, g2, s6, r6, Sub(q, x, y));
    CongAdd(q, Sub(q, x, y), x - y, Sub(q, s5, r5), s5 - r5);
  }

  /** A sum times the inverse is the sum of both parts times the inverse. */
  lemma SplitDivision(q: nat, n: nat, g2: nat, a: nat, b: nat, inv: nat)
    requires q > 1 && Cong(q, n, Mul(q, g2, a) + b)
    ensures Mul(q, n, inv) == Blind(q, g2, Mul(q, b, inv), Mul(q, a, inv))
  {
    var u := Mul(q, g2, a);
    CongMulTo(q, n, u + b, inv, inv, (u + b) * inv);
    Distribute(inv, u, b);
    CongMul(q, u, u, inv, inv);
    CongMul(q, b, b, inv, inv);
    MulMul(q, g2, a, inv);
    CongAdd(q, Mul(q, 1, Mul(q, b, inv)), b * inv, Mul(q, u, inv), u * inv);
  }

  lemma Regrouped(q: nat, p: nat, c: nat, g2: nat, d5: nat, d6: nat)
    requires q > 1
    ensures Reblind(q, g2, p, c, d5, d6) == Add(q, Mul(q, p, c), Add(q, Mul(q, g2, d6), Mul(q, 1, d5)))
  {
    var x, y, z := Mul(q, p, c), Mul(q, g2, d6), Mul(q, 1, d5);
    CongAdd(q, x, x, y, y);
    CongAdd(q, Add(q, x, y), x + y, z, z);
    CongAdd(q, y, y, z, z);
    CongAdd(q, x, x, Add(q, y, z), y + z);
  }

  /** To both generators. */
  lemma ExtractPair(q: nat, g2: nat, p: nat, c: nat, r5: nat, r6: nat, d: nat, s5: nat, s6: nat)
    requires Prime(q) && p < q && c < q && d < q && c != d
    requires Reblind(q, g2, p, c, r5, r6) == Reblind(q, g2, p, d, s5, s6)
    ensures p == Blind(q, g2, Extract(q, c, r5, d, s5), Extract(q, c, r6, d, s6))
  {
    var u, v := Add(q, Mul(q, g2, r6), Mul(q, 1, r5)), Add(q, Mul(q, g2, s6), Mul(q, 1, s5));
    Regrouped(q, p, c, g2, r5, r6);
    Regrouped(q, p, d, g2, s5, s6);
    Divided(q, p, c, u, d, v);
    TwoParts(q, g2, s6, s5, r6, r5, Sub(q, v, u));
    SplitDivision(q, Sub(q, v, u), g2, Sub(q, s6, r6), Sub(q, s5, r5), Inverse(q, Sub(q, c, d)));
  }

  // --------------------------------------------- what each message proves

  /** One commitment, for which the two hashes give different challenges. */
  predicate Rewound(q: nat, hash: Hash, other: Hash, usage: nat, commitment: seq<nat>, commitment': seq<nat>)
    requires q > 1
  {
    commitment == commitment' && Mod(q, hash(usage, commitment)) != Mod(q, other(usage, commitment))
  }

  /** Message 1 shows knowledge of both private exponents. */
  lemma Message1Shows(q: nat, hash: Hash, other: Hash, st: State, m: Message1, m': Message1, k: Coins)
    requires Prime(q) && st.awaits == E1
    requires Process(q, hash, st, Msg1(Some(m)), k).event != Error
    requires Process(q, other, st, Msg1(Some(m')), k).event != Error
    requires m.g2a == m'.g2a < q && m.g3a == m'.g3a < q
    ensures Rewound(q, hash, other, 1, [Recommit(q, 1, m.g2a, m.c2, m.d2)], [Recommit(q, 1, m'.g2a, m'.c2, m'.d2)]) ==>
              && m.c2 < q && m'.c2 < q && m.c2 != m'.c2
              && m.g2a == Mul(q, 1, Extract(q, m.c2, m.d2, m'.c2, m'.d2))
    ensures Rewound(q, hash, other, 2, [Recommit(q, 1, m.g3a, m.c3, m.d3)], [Recommit(q, 1, m'.g3a, m'.c3, m'.d3)]) ==>
              && m.c3 < q && m'.c3 < q && m.c3 != m'.c3
              && m.g3a == Mul(q, 1, Extract(q, m.c3, m.d3, m'.c3, m'.d3))
  {
    OneBase(q, hash, other, 1, 1, m.g2a, m.c2, m.d2, m'.c2, m'.d2);
    OneBase(q, hash, other, 2, 1, m.g3a, m.c3, m.d3, m'.c3, m'.d3);
  }

  lemma OneBase(q: nat, hash: Hash, other: Hash, usage: nat, base: nat, p: nat, c: nat, r: nat, d: nat, s: nat)
    requires Prime(q) && p < q
    requires c == ToScalar(q, hash, usage, [Recommit(q, base, p, c, r)])
    requires d == ToScalar(q, other, usage, [Recommit(q, base, p, d, s)])
    ensures Rewound(q, hash, other, usage, [Recommit(q, base, p, c, r)], [Recommit(q, base, p, d, s)]) ==>
              c < q && d < q && c != d && p == Mul(q, base, Extract(q, c, r, d, s))
  {
    var a, b := Recommit(q, base, p, c, r), Recommit(q, base, p, d, s);
    if Rewound(q, hash, other, usage, [a], [b]) {
      assert [a][0] == [b][0];
      ExtractTo(q, base, p, c, r, d, s);
    }
  }

  /** A proof over two generators. */
  lemma TwoBases(q: nat, hash: Hash, other: Hash, usage: nat, g2: nat, g3: nat, p: nat, t: nat,
                 c: nat, r5: nat, r6: nat, d: nat, s5: nat, s6: nat, x: seq<nat>, y: seq<nat>)
    requires Prime(q) && p < q && t < q
    requires x == [Recommit(q, g3, p, c, r5), Reblind(q, g2, t, c, r5, r6)] && c == ToScalar(q, hash, usage, x)
    requires y == [Recommit(q, g3, p, d, s5), Reblind(q, g2, t, d, s5, s6)] && d == ToScalar(q, other, usage, y)
    ensures Rewound(q, hash, other, usage, x, y) ==>
              && c < q && d < q && c != d && p == Mul(q, g3, Extract(q, c, r5, d, s5))
              && t == Blind(q, g2, Extract(q, c, r5, d, s5), Extract(q, c, r6, d, s6))
  {
    if Rewound(q, hash, other, usage, x, y) {
      assert x[0] == y[0] && x[1] == y[1];
      ExtractTo(q, g3, p, c, r5, d, s5);
      ExtractPair(q, g2, t, c, r5, r6, d, s5, s6);
    }
  }

  /** A proof that two values have one exponent. */
  lemma OneExponent(q: nat, hash: Hash, other: Hash, usage: nat, base: nat, p: nat, t: nat,
                    c: nat, r: nat, d: nat, s: nat, x: seq<nat>, y: seq<nat>)
    requires Prime(q) && p < q && t < q
    requires x == [Recommit(q, 1, p, c, r), Recommit(q, base, t, c, r)] && c == ToScalar(q, hash, usage, x)
    requires y == [Recommit(q, 1, p, d, s), Recommit(q, base, t, d, s)] && d == ToScalar(q, other, usage, y)
    ensures Rewound(q, hash, other, usage, x, y) ==>
              && c < q && d < q && c != d && p == Mul(q, 1, Extract(q, c, r, d, s))
              && t == Mul(q, base, Extract(q, c, r, d, s))
  {
    if Rewound(q, hash, other, usage, x, y) {
      assert x[0] == y[0] && x[1] == y[1];
      ExtractTo(q, 1, p, c, r, d, s);
      ExtractTo(q, base, t, c, r, d, s);
    }
  }

  /** The commitment that the proof of the blinded secret in message 2 recomputes. */
  function Commitment2(q: nat, st: State, m: Message2): seq<nat>
    requires q > 1
  {
    [Recommit(q, Mul(q, m.g3b, st.a3), m.pb, m.cp, m.d5), Reblind(q, Mul(q, m.g2b, st.a2), m.qb, m.cp, m.d5, m.d6)]
  }

  /** Message 2 shows knowledge of both private exponents, and that Pb and Qb blind one secret. */
  lemma Message2Shows(q: nat, hash: Hash, other: Hash, st: State, m: Message2, m': Message2, k: Coins)
    requires Prime(q) && st.awaits == E2
    requires Process(q, hash, st, Msg2(Some(m)), k).event != Error
    requires Process(q, other, st, Msg2(Some(m')), k).event != Error
    requires m.g2b == m'.g2b < q && m.g3b == m'.g3b < q && m.pb == m'.pb < q && m.qb == m'.qb < q
    ensures Rewound(q, hash, other, 3, [Recommit(q, 1, m.g2b, m.c2, m.d2)], [Recommit(q, 1, m'.g2b, m'.c2, m'.d2)]) ==>
              && m.c2 < q && m'.c2 < q && m.c2 != m'.c2
              && m.g2b == Mul(q, 1, Extract(q, m.c2, m.d2, m'.c2, m'.d2))
    ensures Rewound(q, hash, other, 4, [Recommit(q, 1, m.g3b, m.c3, m.d3)], [Recommit(q, 1, m'.g3b, m'.c3, m'.d3)]) ==>
              && m.c3 < q && m'.c3 < q && m.c3 != m'.c3
              && m.g3b == Mul(q, 1, Extract(q, m.c3, m.d3, m'.c3, m'.d3))
    ensures Rewound(q, hash, other, 5, Commitment2(q, st, m), Commitment2(q, st, m')) ==>
              && m.cp < q && m'.cp < q && m.cp != m'.cp
              && m.pb == Mul(q, Mul(q, m.g3b, st.a3), Extract(q, m.cp, m.d5, m'.cp, m'.d5))
              && m.qb == Blind(q, Mul(q, m.g2b, st.a2), Extract(q, m.cp, m.d5, m'.cp, m'.d5),
                               Extract(q, m.cp, m.d6, m'.cp, m'.d6))
  {
    OneBase(q, hash, other, 3, 1, m.g2b, m.c2, m.d2, m'.c2, m'.d2);
    OneBase(q, hash, other, 4, 1, m.g3b, m.c3, m.d3, m'.c3, m'.d3);
    TwoBases(q, hash, other, 5, Mul(q, m.g2b, st.a2), Mul(q, m.g3b, st.a3), m.pb, m.qb,
             m.cp, m.d5, m.d6, m'.cp, m'.d5, m'.d6, Commitment2(q, st, m), Commitment2(q, st, m'));
  }

  /** The commitments that the two proofs of message 3 recompute. */
  function Commitment3(q: nat, st: State, m: Message3): seq<nat>
    requires q > 1
  {
    [Recommit(q, st.g3, m.pa, m.cp, m.d5), Reblind(q, st.g2, m.qa, m.cp, m.d5, m.d6)]
  }

  function Power3(q: nat, st: State, m: Message3): seq<nat>
    requires q > 1
  {
    [Recommit(q, 1, st.g3a, m.cr, m.d7), Recommit(q, Sub(q, m.qa, st.qb), m.ra, m.cr, m.d7)]
  }

  /** Message 3 shows that Pa and Qa blind one secret, and that Ra is made with the exponent of message 1. */
  lemma Message3Shows(q: nat, hash: Hash, other: Hash, st: State, m: Message3, m': Message3, k: Coins)
    requires Prime(q) && st.awaits == E3 && st.g3a < q
    requires Process(q, hash, st, Msg3(Some(m)), k).event != Error
    requires Process(q, other, st, Msg3(Some(m')), k).event != Error
    requires m.pa == m'.pa < q && m.qa == m'.qa < q && m.ra == m'.ra < q
    ensures Rewound(q, hash, other, 6, Commitment3(q, st, m), Commitment3(q, st, m')) ==>
              && m.cp < q && m'.cp < q && m.cp != m'.cp
              && m.pa == Mul(q, st.g3, Extract(q, m.cp, m.d5, m'.cp, m'.d5))
              && m.qa == Blind(q, st.g2, Extract(q, m.cp, m.d5, m'.cp, m'.d5), Extract(q, m.cp, m.d6, m'.cp, m'.d6))
    ensures Rewound(q, hash, other, 7, Power3(q, st, m), Power3(q, st, m')) ==>
              && m.cr < q && m'.cr < q && m.cr != m'.cr
              && st.g3a == Mul(q, 1, Extract(q, m.cr, m.d7, m'.cr, m'.d7))
              && m.ra == Mul(q, Sub(q, m.qa, st.qb), Extract(q, m.cr, m.d7, m'.cr, m'.d7))
  {
    TwoBases(q, hash, other, 6, st.g2, st.g3, m.pa, m.qa, m.cp, m.d5, m.d6, m'.cp, m'.d5, m'.d6,
             Commitment3(q, st, m), Commitment3(q, st, m'));
    OneExponent(q, hash, other, 7, Sub(q, m.qa, st.qb), st.g3a, m.ra, m.cr, m.d7, m'.cr, m'.d7,
                Power3(q, st, m), Power3(q, st, m'));
  }

  function Power4(q: nat, st: State, m: Message4): seq<nat>
    requires q > 1
  {
    [Recommit(q, 1, st.g3b, m.cr, m.d7), Recommit(q, st.qaQb, m.rb, m.cr, m.d7)]
  }

  /** Message 4 shows that Rb is made with the exponent of message 2. */
  lemma Message4Shows(q: nat, hash: Hash, other: Hash, st: State, m: Message4, m': Message4, k: Coins)
    requires Prime(q) && st.awaits == E4 && st.g3b < q
    requires Process(q, hash, st, Msg4(Some(m)), k).event != Error
    requires Process(q, other, st, Msg4(Some(m')), k).event != Error
    requires m.rb == m'.rb < q
    ensures Rewound(q, hash, other, 8, Power4(q, st, m), Power4(q, st, m')) ==>
              && m.cr < q && m'.cr < q && m.cr != m'.cr
              && st.g3b == Mul(q, 1, Extract(q, m.cr, m.d7, m'.cr, m'.d7))
              && m.rb == Mul(q, st.qaQb, Extract(q, m.cr, m.d7, m'.cr, m'.d7))
  {
    OneExponent(q, hash, other, 8, st.qaQb, st.g3b, m.rb, m.cr, m.d7, m'.cr, m'.d7, Power4(q, st, m), Power4(q, st, m'));
  }

  // --------------------------------------------------------- the verdict

  lemma ElementIsMultiple(q: nat, a: nat)
    requires q > 1 && a < q
    ensures Mul(q, 1, a) == a
  {
  }

  /** What a responder holds after its answer. */
  predicate Holding(q: nat, st: State, m1: Message1, y: nat, kb: Coins)
    requires q > 1
  {
    && st.awaits == E3 && st.g3a == m1.g3a && st.b3 == kb.x3
    && st.g2 == Shared(q, m1.g2a, kb.x2) && st.g3 == Mul(q, m1.g3a, kb.x3)
    && st.pb == Mul(q, st.g3, kb.r4) && st.qb == Blind(q, st.g2, kb.r4, Mod(q, y))
  }

  lemma ProvidedHolds(q: nat, hash: Hash, b: State, m1: Message1, y: nat, kb: Coins)
    requires q > 1 && b.awaits == E1 && b.message1 == Some(m1) && m1.g2a < q
    ensures Holding(q, Provide(q, hash, b, y, kb).0, m1, y, kb)
  {
    ElementIsMultiple(q, m1.g2a);
  }

  lemma Comparison3(q: nat, hash: Hash, st: State, m: Message3, k: Coins)
    requires q > 1 && st.awaits == E3 && Process(q, hash, st, Msg3(Some(m)), k).event != Error
    ensures Process(q, hash, st, Msg3(Some(m)), k).event == Success <==> Sub(q, m.pa, st.pb) == Mul(q, m.ra, st.b3)
  {
  }

  lemma ComparisonOf(q: nat, pa: nat, qa: nat, ra: nat, pb: nat, qb: nat, g2: nat, g3: nat, g3a: nat,
                     ra4: nat, x: nat, a3: nat, rb4: nat, y: nat, a2: nat, b2: nat, b3: nat)
    requires Prime(q) && x < q && y < q && g3a == Mul(q, 1, a3) && g2 == Shared(q, a2, b2) && g3 == Mul(q, g3a, b3)
    requires pa == Mul(q, g3, ra4) && qa == Blind(q, g2, ra4, x) && ra == Mul(q, Sub(q, qa, qb), a3)
    requires pb == Mul(q, g3, rb4) && qb == Blind(q, g2, rb4, y)
    ensures Sub(q, pa, pb) == Mul(q, ra, b3) <==> Indistinguishable(q, x, y, a2, a3, b2, b3)
  {
    ComparisonDecides(q, a2, a3, b2, b3, x, y, ra4, rb4, g2, g3, Sub(q, pa, pb), Sub(q, qa, qb), a3, b3);
  }

  lemma ResponderDecides(q: nat, hash: Hash, st: State, m1: Message1, y: nat, kb: Coins, m: Message3, k: Coins,
                         r4: nat, x: nat, a3: nat)
    requires Prime(q) && Holding(q, st, m1, y, kb) && x < q && st.g3a == Mul(q, 1, a3)
    requires m.pa == Mul(q, st.g3, r4) && m.qa == Blind(q, st.g2, r4, x) && m.ra == Mul(q, Sub(q, m.qa, st.qb), a3)
    requires Process(q, hash, st, Msg3(Some(m)), k).event != Error
    ensures Process(q, hash, st, Msg3(Some(m)), k).event == Success
            <==> Indistinguishable(q, x, Mod(q, y), m1.g2a, a3, kb.x2, kb.x3)
  {
    Comparison3(q, hash, st, m, k);
    ComparisonOf(q, m.pa, m.qa, m.ra, st.pb, st.qb, st.g2, st.g3, st.g3a, r4, x, a3, kb.r4, Mod(q, y), m1.g2a, kb.x2,
                 kb.x3);
  }

  /** The responder's verdict on any peer: it reports success exactly when the secret that the proofs of message 3
      give away is its own, or an exponent is zero. */
  lemma ResponderVerdict(q: nat, hash: Hash, other: Hash, st: State, m1: Message1, y: nat, kb: Coins,
                         m: Message3, m': Message3, k: Coins)
    requires Prime(q) && Holding(q, st, m1, y, kb) && m1.g3a < q
    requires m.pa == m'.pa < q && m.qa == m'.qa < q && m.ra == m'.ra < q
    requires Process(q, hash, st, Msg3(Some(m)), k).event != Error
    requires Process(q, other, st, Msg3(Some(m')), k).event != Error
    requires Rewound(q, hash, other, 6, Commitment3(q, st, m), Commitment3(q, st, m'))
    requires Rewound(q, hash, other, 7, Power3(q, st, m), Power3(q, st, m'))
    ensures m.cp < q && m'.cp < q && m.cp != m'.cp && m.cr < q && m'.cr < q && m.cr != m'.cr
    ensures var x, a3 := Extract(q, m.cp, m.d6, m'.cp, m'.d6), Extract(q, m.cr, m.d7, m'.cr, m'.d7);
            Process(q, hash, st, Msg3(Some(m)), k).event == Success
            <==> Indistinguishable(q, x, Mod(q, y), m1.g2a, a3, kb.x2, kb.x3)
  {
    Message3Shows(q, hash, other, st, m, m', k);
    ResponderDecides(q, hash, st, m1, y, kb, m, k, Extract(q, m.cp, m.d5, m'.cp, m'.d5),
                     Extract(q, m.cp, m.d6, m'.cp, m'.d6), Extract(q, m.cr, m.d7, m'.cr, m'.d7));
  }

  /** What an initiator holds after message 3. */
  predicate Waiting(q: nat, st: State, a2: nat, a3: nat, x: nat, m2: Message2, r4: nat)
    requires q > 1
  {
    var g2, g3 := Mul(q, m2.g2b, a2), Mul(q, m2.g3b, a3);
    && st.awaits == E4 && st.a3 == a3 && st.g3b == m2.g3b
    && st.paPb == Sub(q, Mul(q, g3, r4), m2.pb) && st.qaQb == Sub(q, Blind(q, g2, r4, x), m2.qb)
  }

  lemma AnsweredWaits(q: nat, hash: Hash, a: State, m2: Message2, k: Coins)
    requires q > 1 && a.awaits == E2 && Process(q, hash, a, Msg2(Some(m2)), k).event != Error
    ensures Waiting(q, Process(q, hash, a, Msg2(Some(m2)), k).st, a.a2, a.a3, Mod(q, a.secret), m2, k.r4)
  {
  }

  lemma Comparison4(q: nat, hash: Hash, st: State, m: Message4, k: Coins)
    requires q > 1 && st.awaits == E4 && Process(q, hash, st, Msg4(Some(m)), k).event != Error
    ensures Process(q, hash, st, Msg4(Some(m)), k).event == Success <==> st.paPb == Mul(q, m.rb, st.a3)
  {
  }

  lemma ComparisonBack(q: nat, pd: nat, d: nat, rb: nat, g2b: nat, g3b: nat, a2: nat, a3: nat, b3: nat,
                       ra4: nat, x: nat, rb4: nat, y: nat)
    requires Prime(q) && x < q && y < q && g2b < q && g3b == Mul(q, 1, b3)
    requires pd == Sub(q, Mul(q, Mul(q, g3b, a3), ra4), Mul(q, Mul(q, g3b, a3), rb4))
    requires d == Sub(q, Blind(q, Mul(q, g2b, a2), ra4, x), Blind(q, Mul(q, g2b, a2), rb4, y)) && rb == Mul(q, d, b3)
    ensures pd == Mul(q, rb, a3) <==> Indistinguishable(q, x, y, a2, a3, g2b, b3)
  {
    ElementIsMultiple(q, g2b);
    SharedGenerator(q, a2, g2b);
    SharedGenerator(q, a3, b3);
    ComparisonDecides(q, a2, a3, g2b, b3, x, y, ra4, rb4, Mul(q, g2b, a2), Mul(q, g3b, a3), pd, d, b3, a3);
  }

  /** The initiator's verdict likewise: success exactly when the secret y that message 2 blinds is its own, x, or an
      exponent is zero. */
  lemma InitiatorVerdict(q: nat, hash: Hash, other: Hash, st: State, a2: nat, a3: nat, x: nat, ra4: nat,
                         m2: Message2, rb4: nat, y: nat, m: Message4, m': Message4, k: Coins)
    requires Prime(q) && Waiting(q, st, a2, a3, x, m2, ra4) && m2.g2b < q && m2.g3b < q && x < q && y < q
    requires m2.pb == Mul(q, Mul(q, m2.g3b, a3), rb4) && m2.qb == Blind(q, Mul(q, m2.g2b, a2), rb4, y)
    requires m.rb == m'.rb < q && Process(q, hash, st, Msg4(Some(m)), k).event != Error
    requires Process(q, other, st, Msg4(Some(m')), k).event != Error
    requires Rewound(q, hash, other, 8, Power4(q, st, m), Power4(q, st, m'))
    ensures m.cr < q && m'.cr < q && m.cr != m'.cr
    ensures Process(q, hash, st, Msg4(Some(m)), k).event == Success
            <==> Indistinguishable(q, x, y, a2, a3, m2.g2b, Extract(q, m.cr, m.d7, m'.cr, m'.d7))
  {
    Message4Shows(q, hash, other, st, m, m', k);
    Comparison4(q, hash, st, m, k);
    ComparisonBack(q, st.paPb, st.qaQb, m.rb, m2.g2b, m2.g3b, a2, a3, Extract(q, m.cr, m.d7, m'.cr, m'.d7),
                   ra4, x, rb4, y);
  }

  // --------------------------------------------------- around the proofs

  /** The question that goes out with message 1 is the one the other side is asked. */
  lemma QuestionArrives(q: nat, hash: Hash, a: State, b: State, x: nat, question: Option<seq<nat>>, k: Coins, k': Coins)
    requires q > 1 && a.awaits == E1 && b.awaits == E1
    ensures var sent := Initiate(q, hash, a, x, question, k).1; var o := Process(q, hash, b, sent, k');
            o.event == AskForAnswer && o.st.message1.Some? && o.st.message1.value.question == question
  {
    HonestMessage1(q, hash, question, k);
  }

  /** A message that is not the one expected ends the exchange on both sides, whatever is in it. */
  lemma UnexpectedAborts(q: nat, hash: Hash, st: State, tlv: Tlv, k: Coins)
    requires q > 1
    requires (tlv.Msg1? && st.awaits != E1) || (tlv.Msg2? && st.awaits != E2)
          || (tlv.Msg3? && st.awaits != E3) || (tlv.Msg4? && st.awaits != E4)
    ensures var o := Process(q, hash, st, tlv, k);
            && o.event == Aborted && o.reply == Some(AbortTlv)
            && o.st == st.(awaits := E1, progress := 0)
            && (forall peer: State, k': Coins ::
                  Process(q, hash, peer, AbortTlv, k') == Outcome(peer.(awaits := E1, progress := 0), Aborted, None))
  {
  }
}
