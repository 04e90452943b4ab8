/**
 The three-key ring signature of src/auth.c. Scalars and points live in Zq; the hash that
 produces the challenge is an arbitrary function of the three keys, the three commitments
 and the message, with the usage byte and the domain separator folded into the function.
 The random scalars are parameters.
 */
module RingSignature {
  import opened Prelude
  import opened Schnorr
  import opened Zq

  datatype Ring = Ring(a1: nat, a2: nat, a3: nat)

  datatype Signature = Signature(c1: nat, r1: nat, c2: nat, r2: nat, c3: nat, r3: nat)

  /** The nine scalars drawn while signing. */
  datatype Coins = Coins(t1: nat, t2: nat, t3: nat,
                         r1: nat, r2: nat, r3: nat,
                         c1: nat, c2: nat, c3: nat)

  datatype Commitments = Commitments(t1: nat, t2: nat, t3: nat)

  type Hash = (Ring, Commitments, seq<nat>) -> nat

  // ------------------------------------------------------------- verification

  /** A * c + G * r. */
  function Commit(q: nat, a: nat, c: nat, r: nat): nat
    requires q > 1
  {
    Recommit(q, 1, a, c, r)
  }

  function Recomputed(q: nat, s: Signature, ring: Ring): Commitments
    requires q > 1
  {
    Commitments(Commit(q, ring.a1, s.c1, s.r1), Commit(q, ring.a2, s.c2, s.r2), Commit(q, ring.a3, s.c3, s.r3))
  }

  function Sum(q: nat, c1: nat, c2: nat, c3: nat): nat
    requires q > 1
  {
    Add(q, Add(q, c1, c2), c3)
  }

  predicate Verifies(q: nat, hash: Hash, s: Signature, ring: Ring, msg: seq<nat>)
    requires q > 1
  {
    Mod(q, hash(ring, Recomputed(q, s, ring), msg)) == Sum(q, s.c1, s.c2, s.c3)
  }

  // ------------------------------------------------------------------ signing

  predicate ExactlyOne(ring: Ring, pub: nat) {
    || (pub == ring.a1 && pub != ring.a2 && pub != ring.a3)
    || (pub != ring.a1 && pub == ring.a2 && pub != ring.a3)
    || (pub != ring.a1 && pub != ring.a2 && pub == ring.a3)
  }

  predicate All(ring: Ring, pub: nat) {
    pub == ring.a1 == ring.a2 == ring.a3
  }

  /** In other words: pub is in the ring once, or three times. */
  lemma HowOften(ring: Ring, pub: nat)
    ensures ExactlyOne(ring, pub) <==> multiset{ring.a1, ring.a2, ring.a3}[pub] == 1
    ensures All(ring, pub) <==> multiset{ring.a1, ring.a2, ring.a3}[pub] == 3
  {
  }

  /** choose_T: the commitment at one position. */
  function ChooseT(q: nat, a: nat, isSecret: bool, r: nat, t: nat, c: nat): nat
    requires q > 1
  {
    if isSecret then Mul(q, 1, t) else Add(q, Mul(q, 1, r), Mul(q, a, c))
  }

  function CalculateC(q: nat, c: nat, ci: nat, isSecret: bool, cj: nat, ck: nat): nat
    requires q > 1
  {
    if isSecret then Sub(q, Sub(q, c, cj), ck) else ci
  }

  function CalculateR(q: nat, secret: nat, ri: nat, isSecret: bool, ci: nat, ti: nat): nat
    requires q > 1
  {
    if isSecret then Answer(q, ti, secret, ci) else ri
  }

  /** The signature the three position flags, the secret and the coins determine. */
  function Sign(q: nat, hash: Hash, secret: nat, isA1: bool, isA2: bool, isA3: bool, ring: Ring, msg: seq<nat>,
                coins: Coins): Signature
    requires q > 1
  {
    var chosen := Commitments(ChooseT(q, ring.a1, isA1, coins.r1, coins.t1, coins.c1),
                              ChooseT(q, ring.a2, isA2, coins.r2, coins.t2, coins.c2),
                              ChooseT(q, ring.a3, isA3, coins.r3, coins.t3, coins.c3));
    var c := Mod(q, hash(ring, chosen, msg));
    var c1 := CalculateC(q, c, coins.c1, isA1, coins.c2, coins.c3);
    var c2 := CalculateC(q, c, coins.c2, isA2, coins.c1, coins.c3);
    var c3 := CalculateC(q, c, coins.c3, isA3, coins.c1, coins.c2);
    Signature(c1, CalculateR(q, secret, coins.r1, isA1, c1, coins.t1),
              c2, CalculateR(q, secret, coins.r2, isA2, c2, coins.t2),
              c3, CalculateR(q, secret, coins.r3, isA3, c3, coins.t3))
  }

  /**
   Signs with the private key of pub. The test that at most one key of the ring is pub is
   an exclusive or, which also lets three equal keys through: then every position is
   treated as the signer's, and the result verifies only if the challenge happens to be the
   sum of the three random ones.
   */
  method Authenticate(q: nat, hash: Hash, secret: nat, pub: nat, ring: Ring, msg: seq<nat>, coins: Coins)
    returns (dst: Option<Signature>)
    requires Prime(q) && q > 2
    ensures dst.Some? <==> ExactlyOne(ring, pub) || All(ring, pub)
    ensures dst.Some? ==>
              dst.value == Sign(q, hash, secret, pub == ring.a1, pub == ring.a2, pub == ring.a3, ring, msg, coins)
    ensures dst.Some? && pub == Mul(q, 1, secret) && ExactlyOne(ring, pub) ==>
              Verifies(q, hash, dst.value, ring, msg)
    ensures dst.Some? && pub == Mul(q, 1, secret) && All(ring, pub) ==>
              (Verifies(q, hash, dst.value, ring, msg) <==>
               Mod(q, hash(ring, Commitments(Mod(q, coins.t1), Mod(q, coins.t2), Mod(q, coins.t3)), msg))
               == Sum(q, coins.c1, coins.c2, coins.c3))
  {
    var isA1, isA2, isA3 := pub == ring.a1, pub == ring.a2, pub == ring.a3;
    if !(isA1 || isA2 || isA3) {
      return None;
    }
    if !((isA1 != isA2) != isA3) {
      return None;
    }
    var chosen1 := ChooseT(q, ring.a1, isA1, coins.r1, coins.t1, coins.c1);
    var chosen2 := ChooseT(q, ring.a2, isA2, coins.r2, coins.t2, coins.c2);
    var chosen3 := ChooseT(q, ring.a3, isA3, coins.r3, coins.t3, coins.c3);
    var c := Mod(q, hash(ring, Commitments(chosen1, chosen2, chosen3), msg));

    var c1 := CalculateC(q, c, coins.c1, isA1, coins.c2, coins.c3);
    var c2 := CalculateC(q, c, coins.c2, isA2, coins.c1, coins.c3);
    var c3 := CalculateC(q, c, coins.c3, isA3, coins.c1, coins.c2);
    var r1 := CalculateR(q, secret, coins.r1, isA1, c1, coins.t1);
    var r2 := CalculateR(q, secret, coins.r2, isA2, c2, coins.t2);
    var r3 := CalculateR(q, secret, coins.r3, isA3, c3, coins.t3);
    dst := Some(Signature(c1, r1, c2, r2, c3, r3));

    if pub == Mul(q, 1, secret) {
      CommitmentMatches(q, ring.a1, secret, isA1, coins.r1, coins.t1, coins.c1, c1);
      CommitmentMatches(q, ring.a2, secret, isA2, coins.r2, coins.t2, coins.c2, c2);
      CommitmentMatches(q, ring.a3, secret, isA3, coins.r3, coins.t3, coins.c3, c3);
      if All(ring, pub) {
        AllSum(q, c, coins.c1, coins.c2, coins.c3);
      } else {
        OneSum(q, c, coins.c1, coins.c2, coins.c3);
      }
    }
  }

  /** The verifier recomputes exactly the commitment the signer hashed, at every position. */
  lemma CommitmentMatches(q: nat, a: nat, secret: nat, isSecret: bool, r: nat, t: nat, c: nat, d: nat)
    requires q > 1
    requires isSecret ==> a == Mul(q, 1, secret)
    requires !isSecret ==> d == c
    ensures Commit(q, a, d, CalculateR(q, secret, r, isSecret, d, t)) == ChooseT(q, a, isSecret, r, t, c)
  {
    if isSecret {
      AnswerRecommits(q, 1, a, secret, t, d);
    }
  }

  lemma CongSum(q: nat, c1: nat, e1: int, c2: nat, e2: int, c3: nat, e3: int)
    requires q > 1 && Cong(q, c1, e1) && Cong(q, c2, e2) && Cong(q, c3, e3)
    ensures Cong(q, Sum(q, c1, c2, c3), e1 + e2 + e3)
  {
    CongAdd(q, c1, e1, c2, e2);
    CongAdd(q, Add(q, c1, c2), e1 + e2, c3, e3);
  }

  lemma CongRest(q: nat, c: nat, j: nat, k: nat)
    requires q > 1
    ensures Cong(q, Sub(q, Sub(q, c, j), k), c - j - k)
  {
    CongSub(q, c, c, j, j);
    CongSub(q, Sub(q, c, j), c - j, k, k);
  }

  /** One position absorbs the challenge: the three summands add up to it. */
  lemma OneSum(q: nat, c: nat, k1: nat, k2: nat, k3: nat)
    requires q > 1 && c < q
    ensures Sum(q, Sub(q, Sub(q, c, k2), k3), k2, k3) == c
    ensures Sum(q, k1, Sub(q, Sub(q, c, k1), k3), k3) == c
    ensures Sum(q, k1, k2, Sub(q, Sub(q, c, k1), k2)) == c
  {
    CongRest(q, c, k2, k3);
    CongRest(q, c, k1, k3);
    CongRest(q, c, k1, k2);
    CongSum(q, Sub(q, Sub(q, c, k2), k3), c - k2 - k3, k2, k2, k3, k3);
    CongSum(q, k1, k1, Sub(q, Sub(q, c, k1), k3), c - k1 - k3, k3, k3);
    CongSum(q, k1, k1, k2, k2, Sub(q, Sub(q, c, k1), k2), c - k1 - k2);
  }

  /** When all three absorb it, the summands come to 3c - 2(k1 + k2 + k3). */
  lemma AllSum(q: nat, c: nat, k1: nat, k2: nat, k3: nat)
    requires Prime(q) && q > 2 && c < q
    ensures Sum(q, Sub(q, Sub(q, c, k2), k3), Sub(q, Sub(q, c, k1), k3), Sub(q, Sub(q, c, k1), k2)) == c
            <==> c == Sum(q, k1, k2, k3)
  {
    CongRest(q, c, k2, k3);
    CongRest(q, c, k1, k3);
    CongRest(q, c, k1, k2);
    var x := Sum(q, Sub(q, Sub(q, c, k2), k3), Sub(q, Sub(q, c, k1), k3), Sub(q, Sub(q, c, k1), k2));
    CongSum(q, Sub(q, Sub(q, c, k2), k3), c - k2 - k3, Sub(q, Sub(q, c, k1), k3), c - k1 - k3,
            Sub(q, Sub(q, c, k1), k2), c - k1 - k2);
    CongSum(q, k1, k1, k2, k2, k3, k3);
    TwiceApart(q, c, Sum(q, k1, k2, k3), k1 + k2 + k3, x);
  }

  lemma TwiceApart(q: nat, c: nat, s: nat, e: int, x: nat)
    requires Prime(q) && q > 2 && c < q && s < q && x < q
    requires Cong(q, s, e) && Cong(q, x, 3 * c - 2 * e)
    ensures x == c <==> c == s
  {
    var d := Sub(q, c, s);
    CongSub(q, c, c, s, e);
    CongMul(q, 2, 2, d, c - e);
    CongSub(q, x, 3 * c - 2 * e, c, c);
    SubZero(q, x, c);
    SubZero(q, c, s);
    NoZeroDivisors(q, 2, d);
  }

  // ---------------------------------------------------------- special soundness

  /**
   Two accepted answers on the same ring with the same commitments but different challenges
   (two hash functions, as in rewinding a signer) give away the private key of one position:
   one where the two challenge shares differ.
   */
  lemma SpecialSoundness(q: nat, hash: Hash, other: Hash, s: Signature, s': Signature, ring: Ring,
                         msg: seq<nat>, msg': seq<nat>) returns (i: nat, secret: nat)
    requires Prime(q) && ring.a1 < q && ring.a2 < q && ring.a3 < q
    requires s.c1 < q && s.c2 < q && s.c3 < q && s'.c1 < q && s'.c2 < q && s'.c3 < q
    requires Verifies(q, hash, s, ring, msg) && Verifies(q, other, s', ring, msg')
    requires Recomputed(q, s, ring) == Recomputed(q, s', ring)
    requires Mod(q, hash(ring, Recomputed(q, s, ring), msg)) != Mod(q, other(ring, Recomputed(q, s', ring), msg'))
    ensures 1 <= i <= 3
    ensures i == 1 ==> s.c1 != s'.c1 && secret == Extract(q, s.c1, s.r1, s'.c1, s'.r1) && ring.a1 == Mul(q, 1, secret)
    ensures i == 2 ==> s.c2 != s'.c2 && secret == Extract(q, s.c2, s.r2, s'.c2, s'.r2) && ring.a2 == Mul(q, 1, secret)
    ensures i == 3 ==> s.c3 != s'.c3 && secret == Extract(q, s.c3, s.r3, s'.c3, s'.r3) && ring.a3 == Mul(q, 1, secret)
  {
    if s.c1 != s'.c1 {
      i, secret := 1, Extract(q, s.c1, s.r1, s'.c1, s'.r1);
      ExtractIsKey(q, ring.a1, s.c1, s.r1, s'.c1, s'.r1);
    } else if s.c2 != s'.c2 {
      i, secret := 2, Extract(q, s.c2, s.r2, s'.c2, s'.r2);
      ExtractIsKey(q, ring.a2, s.c2, s.r2, s'.c2, s'.r2);
    } else {
      assert s.c3 != s'.c3;
      i, secret := 3, Extract(q, s.c3, s.r3, s'.c3, s'.r3);
      ExtractIsKey(q, ring.a3, s.c3, s.r3, s'.c3, s'.r3);
    }
  }

  // ----------------------------------------------------------------- deniability

  /** The coin that makes the commitment of a known key come out as a given one. */
  lemma CommitmentReached(q: nat, a: nat, secret: nat, isSecret: bool, c: nat, r: nat)
    requires q > 1 && c < q && r < q
    requires isSecret ==> a == Mul(q, 1, secret)
    ensures var t := Add(q, r, Mul(q, secret, c));
            && ChooseT(q, a, isSecret, r, t, c) == Commit(q, a, c, r)
            && CalculateR(q, secret, r, isSecret, c, t) == r
  {
    if isSecret {
      var p := secret * c;
      var t := Add(q, r, Mul(q, secret, c));
      CongAdd(q, r, r, Mul(q, secret, c), p);
      RecommitCong(q, 1, a, c, r, 1, secret, r, p, r);
      CongSub(q, t, r + p, Mul(q, secret, c), p);
    }
  }

  /** A share is what the sum leaves when the other two are taken away. */
  lemma ShareRecovered(q: nat, c1: nat, c2: nat, c3: nat)
    requires q > 1 && c1 < q && c2 < q && c3 < q
    ensures var c := Sum(q, c1, c2, c3);
            && Sub(q, Sub(q, c, c2), c3) == c1
            && Sub(q, Sub(q, c, c1), c3) == c2
            && Sub(q, Sub(q, c, c1), c2) == c3
  {
    var c := Sum(q, c1, c2, c3);
    CongSum(q, c1, c1, c2, c2, c3, c3);
    CongSub(q, c, c1 + c2 + c3, c2, c2);
    CongSub(q, Sub(q, c, c2), c1 + c3, c3, c3);
    CongSub(q, c, c1 + c2 + c3, c1, c1);
    CongSub(q, Sub(q, c, c1), c2 + c3, c3, c3);
    CongSub(q, Sub(q, c, c1), c2 + c3, c2, c2);
  }

  /**
   Deniability: any signature that verifies is one that the holder of any single key of the
   ring would have produced with some coins.
   */
  lemma AnyKeyCouldHaveSigned(q: nat, hash: Hash, s: Signature, ring: Ring, msg: seq<nat>, secret: nat, pub: nat)
    returns (coins: Coins)
    requires q > 1 && Verifies(q, hash, s, ring, msg)
    requires s.c1 < q && s.c2 < q && s.c3 < q && s.r1 < q && s.r2 < q && s.r3 < q
    requires ExactlyOne(ring, pub) && pub == Mul(q, 1, secret)
    ensures Sign(q, hash, secret, pub == ring.a1, pub == ring.a2, pub == ring.a3, ring, msg, coins) == s
  {
    coins := Coins(Add(q, s.r1, Mul(q, secret, s.c1)), Add(q, s.r2, Mul(q, secret, s.c2)),
                   Add(q, s.r3, Mul(q, secret, s.c3)), s.r1, s.r2, s.r3, s.c1, s.c2, s.c3);
    CommitmentReached(q, ring.a1, secret, pub == ring.a1, s.c1, s.r1);
    CommitmentReached(q, ring.a2, secret, pub == ring.a2, s.c2, s.r2);
    CommitmentReached(q, ring.a3, secret, pub == ring.a3, s.c3, s.r3);
    ShareRecovered(q, s.c1, s.c2, s.c3);
  }
}
