/**
 The batch proofs of knowledge of src/prekey_proofs.c. The hash that makes the challenge and
 the one that expands it into one weight per key are arbitrary functions; the random scalar
 is a parameter. Keys of the first proof live in Zq, those of the second are powers of g
 modulo p.
 */
module BatchProofs {
  import opened Zq

  datatype Proof = Proof(c: nat, v: nat)

  /** Challenge from the commitment, the public keys and the message. */
  type Hash = (nat, seq<nat>, seq<nat>) -> nat

  /** The weight of key i among n: the i-th slice of the expanded challenge. */
  type Expand = (nat, nat, nat) -> nat

  function Weights(expand: Expand, c: nat, n: nat): (w: seq<nat>)
    ensures |w| == n
  {
    seq(n, i requires 0 <= i < n => expand(c, n, i))
  }

  // ---------------------------------------------------------------------- ECDH

  /** The plain sum of xs[i] * w[i] over the first n positions. */
  function Combine(q: nat, xs: seq<nat>, w: seq<nat>, n: nat): nat
    requires q > 1 && n <= |xs| && n <= |w|
  {
    if n == 0 then 0 else Add(q, Combine(q, xs, w, n - 1), Mul(q, xs[n - 1], w[n - 1]))
  }

  predicate EcdhAccepts(q: nat, hash: Hash, expand: Expand, px: Proof, pub: seq<nat>, m: seq<nat>)
    requires q > 1
  {
    px.c == hash(Sub(q, Mul(q, 1, px.v), Combine(q, pub, Weights(expand, px.c, |pub|), |pub|)), pub, m)
  }

  method EcdhGenerate(q: nat, hash: Hash, expand: Expand, r: nat, priv: seq<nat>, pub: seq<nat>, m: seq<nat>)
    returns (dst: Proof)
    requires q > 1 && |priv| == |pub|
    ensures dst.c == hash(Mul(q, 1, r), pub, m)
    ensures Cong(q, dst.v, r + Combine(q, priv, Weights(expand, dst.c, |pub|), |pub|))
    ensures (forall i | 0 <= i < |priv| :: pub[i] == Mul(q, 1, priv[i])) ==> EcdhAccepts(q, hash, expand, dst, pub, m)
  {
    var a := Mul(q, 1, r);
    var c := hash(a, pub, m);
    ghost var w := Weights(expand, c, |pub|);
    var v := r;
    var i := 0;
    while i < |priv|
      invariant 0 <= i <= |priv|
      invariant Cong(q, v, r + Combine(q, priv, w, i))
    {
      var t := Mod(q, expand(c, |pub|, i));
      t := Mul(q, t, priv[i]);
      ExtendWeighted(q, v, r, Combine(q, priv, w, i), w[i], priv[i]);
      v := Add(q, v, t);
      i := i + 1;
    }
    dst := Proof(c, v);
    if forall i | 0 <= i < |priv| :: pub[i] == Mul(q, 1, priv[i]) {
      CombineOfMultiples(q, priv, pub, w, |pub|);
      Cancel(q, v, r, Combine(q, priv, w, |pub|));
    }
  }

  lemma Extend(q: nat, v: nat, r: nat, s: nat, t: nat, e: int)
    requires q > 1 && Cong(q, v, r + s) && Cong(q, t, e)
    ensures Cong(q, Add(q, v, t), r + Add(q, s, Mod(q, e)))
  {
    CongAdd(q, v, r + s, t, e);
    CongAdd(q, s, s, Mod(q, e), e);
    CongAdd(q, r, r, Add(q, s, Mod(q, e)), s + e);
  }

  lemma ExtendWeighted(q: nat, v: nat, r: nat, s: nat, w: nat, x: nat)
    requires q > 1 && Cong(q, v, r + s)
    ensures Cong(q, Add(q, v, Mul(q, Mod(q, w), x)), r + Add(q, s, Mul(q, x, w)))
  {
    CongMulTo(q, Mod(q, w), w, x, x, x * w);
    Extend(q, v, r, s, Mul(q, Mod(q, w), x), x * w);
  }

  lemma Cancel(q: nat, v: nat, r: nat, s: nat)
    requires q > 1 && Cong(q, v, r + s)
    ensures Sub(q, Mul(q, 1, v), s) == Mul(q, 1, r)
  {
    CongSub(q, Mul(q, 1, v), r + s, s, s);
  }

  lemma {:induction false} CombineOfMultiples(q: nat, priv: seq<nat>, pub: seq<nat>, w: seq<nat>, n: nat)
    requires q > 1 && |priv| == |pub| && n <= |priv| && n <= |w|
    requires forall i | 0 <= i < |priv| :: pub[i] == Mul(q, 1, priv[i])
    ensures Combine(q, pub, w, n) == Combine(q, priv, w, n)
  {
    if n > 0 {
      CombineOfMultiples(q, priv, pub, w, n - 1);
      CongMul(q, pub[n - 1], priv[n - 1], w[n - 1], w[n - 1]);
    }
  }

  /** goldilocks_448_point_double_scalarmul. */
  function DoubleScalarMul(q: nat, a: nat, s: nat, b: nat, t: nat): nat
    requires q > 1
  {
    Add(q, Mul(q, a, s), Mul(q, b, t))
  }

  method EcdhVerify(q: nat, hash: Hash, expand: Expand, px: Proof, pub: seq<nat>, m: seq<nat>) returns (ok: bool)
    requires q > 1
    ensures ok <==> EcdhAccepts(q, hash, expand, px, pub, m)
  {
    var n := |pub|;
    ghost var w := Weights(expand, px.c, n);
    var a := Mul(q, 1, px.v);
    var curr := 0;
    var i := 0;
    while i + 1 < n
      invariant 0 <= i <= n
      invariant curr == Combine(q, pub, w, i)
    {
      var t1 := Mod(q, expand(px.c, n, i));
      var t2 := Mod(q, expand(px.c, n, i + 1));
      var res := DoubleScalarMul(q, pub[i], t1, pub[i + 1], t2);
      PairIsTwoSteps(q, curr, pub[i], w[i], pub[i + 1], w[i + 1]);
      curr := Add(q, curr, res);
      i := i + 2;
    }
    if i < n {
      var t := Mod(q, expand(px.c, n, i));
      CongMul(q, pub[i], pub[i], t, w[i]);
      curr := Add(q, curr, Mul(q, pub[i], t));
    }
    a := Sub(q, a, curr);
    ok := px.c == hash(a, pub, m);
  }

  lemma PairIsTwoSteps(q: nat, curr: nat, a: nat, s: nat, b: nat, t: nat)
    requires q > 1
    ensures Add(q, curr, DoubleScalarMul(q, a, Mod(q, s), b, Mod(q, t)))
            == Add(q, Add(q, curr, Mul(q, a, s)), Mul(q, b, t))
  {
    var u, v := Mul(q, a, s), Mul(q, b, t);
    CongMul(q, a, a, Mod(q, s), s);
    CongMul(q, b, b, Mod(q, t), t);
    CongAdd(q, u, u, v, v);
    CongAdd(q, curr, curr, Add(q, u, v), u + v);
    CongAdd(q, curr, curr, u, u);
    CongAdd(q, Add(q, curr, u), curr + u, v, v);
  }

  /** How far each public key is from the multiple its private key stands for. */
  function Errors(q: nat, priv: seq<nat>, pub: seq<nat>): (e: seq<nat>)
    requires q > 1 && |priv| == |pub|
    ensures |e| == |pub|
  {
    seq(|pub|, i requires 0 <= i < |pub| => Sub(q, pub[i], priv[i]))
  }

  lemma {:induction false} CombineOfErrors(q: nat, priv: seq<nat>, pub: seq<nat>, w: seq<nat>, n: nat)
    requires q > 1 && |priv| == |pub| && n <= |pub| && n <= |w|
    ensures Cong(q, Combine(q, Errors(q, priv, pub), w, n), Combine(q, pub, w, n) - Combine(q, priv, w, n))
  {
    if n > 0 {
      CombineOfErrors(q, priv, pub, w, n - 1);
      ErrorTerm(q, pub[n - 1], priv[n - 1], w[n - 1]);
      ErrorSum(q, Combine(q, Errors(q, priv, pub), w, n - 1), Combine(q, pub, w, n - 1), Combine(q, priv, w, n - 1),
               Mul(q, Sub(q, pub[n - 1], priv[n - 1]), w[n - 1]), Mul(q, pub[n - 1], w[n - 1]),
               Mul(q, priv[n - 1], w[n - 1]));
    }
  }

  lemma ErrorTerm(q: nat, a: nat, b: nat, w: nat)
    requires q > 1
    ensures Cong(q, Mul(q, Sub(q, a, b), w), Mul(q, a, w) - Mul(q, b, w))
  {
    Distribute(w, a, b);
    ErrorTermOf(q, a, b, w, a * w, b * w);
  }

  lemma ErrorTermOf(q: nat, a: nat, b: nat, w: nat, u: int, v: int)
    requires q > 1 && u == a * w && v == b * w && u - v == (a - b) * w
    ensures Cong(q, Mul(q, Sub(q, a, b), w), Mul(q, a, w) - Mul(q, b, w))
  {
    CongSub(q, a, a, b, b);
    CongMulTo(q, Sub(q, a, b), a - b, w, w, u - v);
    CongMulTo(q, a, a, w, w, u);
    CongMulTo(q, b, b, w, w, v);
    CongDifference(q, Mul(q, Sub(q, a, b), w), Mul(q, a, w), u, Mul(q, b, w), v);
  }

  lemma CongDifference(q: nat, x: int, y: int, u: int, z: int, v: int)
    requires q > 1 && Cong(q, x, u - v) && Cong(q, y, u) && Cong(q, z, v)
    ensures Cong(q, x, y - z)
  {
    CongSub(q, y, u, z, v);
  }

  lemma ErrorSum(q: nat, x: nat, y: nat, z: nat, x': nat, y': nat, z': nat)
    requires q > 1 && Cong(q, x, y - z) && Cong(q, x', y' - z')
    ensures Cong(q, Add(q, x, x'), Add(q, y, y') - Add(q, z, z'))
  {
    CongAdd(q, x, y - z, x', y' - z');
    CongAdd(q, y, y, y', y');
    CongAdd(q, z, z, z', z');
    CongSub(q, Add(q, y, y'), y + y', Add(q, z, z'), z + z');
  }

  /**
   Whatever the keys, the verifier recomputes the prover's commitment exactly when the
   weighted errors of the public keys cancel.
   */
  lemma WrongKeysShiftTheCommitment(q: nat, v: nat, r: nat, priv: seq<nat>, pub: seq<nat>, w: seq<nat>)
    requires q > 1 && |priv| == |pub| == |w|
    requires Cong(q, v, r + Combine(q, priv, w, |w|))
    ensures Sub(q, Mul(q, 1, v), Combine(q, pub, w, |w|)) == Mul(q, 1, r)
            <==> Combine(q, Errors(q, priv, pub), w, |w|) == 0
  {
    CombineOfErrors(q, priv, pub, w, |w|);
    CommitmentShift(q, v, r, Combine(q, priv, w, |w|), Combine(q, pub, w, |w|),
                    Combine(q, Errors(q, priv, pub), w, |w|));
  }

  lemma CommitmentShift(q: nat, v: nat, r: nat, s: nat, p: nat, e: nat)
    requires q > 1 && Cong(q, v, r + s) && Cong(q, e, p - s) && e < q
    ensures Sub(q, Mul(q, 1, v), p) == Mul(q, 1, r) <==> e == 0
  {
    var g, d := Mod(q, r), Sub(q, Mod(q, v), p);
    CongSub(q, Mod(q, v), r + s, p, p);
    CongSub(q, g, r, d, r + s - p);
    assert Sub(q, g, d) == e;
    SubZero(q, g, d);
  }

  lemma {:induction false} CombineOfOneError(q: nat, e: seq<nat>, w: seq<nat>, k: nat, n: nat)
    requires q > 1 && k < |e| && n <= |e| == |w|
    requires forall i | 0 <= i < |e| && i != k :: e[i] == 0
    ensures Combine(q, e, w, n) == if k < n then Mul(q, e[k], w[k]) else 0
  {
    if n > 0 {
      CombineOfOneError(q, e, w, k, n - 1);
    }
  }

  /** What acceptance shows: of a proof made for these private keys, whatever the public keys, the verifier accepts it
      if and only if the weighted errors of the public keys cancel. */
  lemma EcdhAcceptsIff(q: nat, hash: Hash, expand: Expand, px: Proof, r: nat, priv: seq<nat>, pub: seq<nat>, m: seq<nat>)
    requires q > 1 && |priv| == |pub| && px.c == hash(Mul(q, 1, r), pub, m)
    requires forall a: nat | a < q && hash(a, pub, m) == px.c :: a == Mul(q, 1, r)
    requires Cong(q, px.v, r + Combine(q, priv, Weights(expand, px.c, |pub|), |pub|))
    ensures EcdhAccepts(q, hash, expand, px, pub, m)
            <==> Combine(q, Errors(q, priv, pub), Weights(expand, px.c, |pub|), |pub|) == 0
  {
    WrongKeysShiftTheCommitment(q, px.v, r, priv, pub, Weights(expand, px.c, |pub|));
  }

  /** When one key of the batch is wrong, the proof is accepted only if the weight of that key is zero. */
  lemma OneWrongKeyIsNoticed(q: nat, hash: Hash, expand: Expand, px: Proof, r: nat, priv: seq<nat>, pub: seq<nat>,
                             m: seq<nat>, k: nat)
    requires Prime(q) && |priv| == |pub| && k < |pub|
    requires px.c == hash(Mul(q, 1, r), pub, m) && forall a: nat | a < q && hash(a, pub, m) == px.c :: a == Mul(q, 1, r)
    requires Cong(q, px.v, r + Combine(q, priv, Weights(expand, px.c, |pub|), |pub|))
    requires forall i | 0 <= i < |pub| && i != k :: Cong(q, pub[i], priv[i])
    requires !Cong(q, pub[k], priv[k])
    ensures EcdhAccepts(q, hash, expand, px, pub, m) <==> Mod(q, expand(px.c, |pub|, k)) == 0
  {
    OneWrongKeyShifts(q, px.v, r, priv, pub, Weights(expand, px.c, |pub|), k);
  }

  /** The commitment survives one wrong key only if its weight is zero. */
  lemma OneWrongKeyShifts(q: nat, v: nat, r: nat, priv: seq<nat>, pub: seq<nat>, w: seq<nat>, k: nat)
    requires Prime(q) && |priv| == |pub| == |w| && k < |pub|
    requires Cong(q, v, r + Combine(q, priv, w, |w|))
    requires forall i | 0 <= i < |pub| && i != k :: Cong(q, pub[i], priv[i])
    requires !Cong(q, pub[k], priv[k])
    ensures Sub(q, Mul(q, 1, v), Combine(q, pub, w, |w|)) == Mul(q, 1, r) <==> Mod(q, w[k]) == 0
  {
    var e := Errors(q, priv, pub);
    forall i | 0 <= i < |pub|
      ensures e[i] == 0 <==> Cong(q, pub[i], priv[i])
    {
      CongSub(q, pub[i], Mod(q, pub[i]), priv[i], Mod(q, priv[i]));
      SubZero(q, Mod(q, pub[i]), Mod(q, priv[i]));
    }
    WrongKeysShiftTheCommitment(q, v, r, priv, pub, w);
    CombineOfOneError(q, e, w, k, |w|);
    CongMul(q, e[k], e[k], Mod(q, w[k]), w[k]);
    NoZeroDivisors(q, e[k], Mod(q, w[k]));
  }

  // ------------------------------------------------------------------------ DH

  /** b to the e modulo p. */
  function Pow(p: nat, b: nat, e: nat): (r: nat)
    requires p > 1
    ensures r < p
  {
    if e == 0 then 1 else Mul(p, Pow(p, b, e - 1), b)
  }

  /** The product of xs[i] to the w[i] over the first n positions. */
  function PowProduct(p: nat, xs: seq<nat>, w: seq<nat>, n: nat): (r: nat)
    requires p > 1 && n <= |xs| && n <= |w|
    ensures r < p
  {
    if n == 0 then 1 else Mul(p, PowProduct(p, xs, w, n - 1), Pow(p, xs[n - 1], w[n - 1]))
  }

  /** The exponent of such a product when the keys are powers of one base. */
  function Exponent(priv: seq<nat>, w: seq<nat>, n: nat): nat
    requires n <= |priv| && n <= |w|
  {
    if n == 0 then 0 else Exponent(priv, w, n - 1) + w[n - 1] * priv[n - 1]
  }

  /** gcry_mpi_invm: a value without inverse is left as it is. */
  function Invm(p: nat, a: nat): nat
    requires Prime(p) && a < p
  {
    if a == 0 then a else Inverse(p, a)
  }

  /** The verifier's commitment: the power of g with the product of the keys divided out. */
  function Unblind(p: nat, a: nat, product: nat): nat
    requires Prime(p) && product < p
  {
    Mul(p, a, Invm(p, product))
  }

  predicate DhAccepts(p: nat, g: nat, hash: Hash, expand: Expand, px: Proof, pub: seq<nat>, m: seq<nat>)
    requires Prime(p)
  {
    px.c == hash(Unblind(p, Pow(p, g, px.v), PowProduct(p, pub, Weights(expand, px.c, |pub|), |pub|)), pub, m)
  }

  method DhGenerate(p: nat, q: nat, g: nat, hash: Hash, expand: Expand, r: nat, priv: seq<nat>, pub: seq<nat>,
                    m: seq<nat>) returns (dst: Proof)
    requires Prime(p) && q > 1 && Pow(p, g, q) == 1 && |priv| == |pub|
    ensures dst.c == hash(Pow(p, g, r), pub, m)
    ensures Cong(q, dst.v, r + Exponent(priv, Weights(expand, dst.c, |pub|), |pub|))
    ensures (forall i | 0 <= i < |priv| :: pub[i] == Pow(p, g, priv[i])) ==> DhAccepts(p, g, hash, expand, dst, pub, m)
  {
    var c := hash(Pow(p, g, r), pub, m);
    ghost var w := Weights(expand, c, |pub|);
    var v := r;
    var i := 0;
    while i < |priv|
      invariant 0 <= i <= |priv|
      invariant Cong(q, v, r + Exponent(priv, w, i))
    {
      var t := expand(c, |pub|, i);
      t := Mul(q, t, priv[i]);
      CongAdd(q, v, r + Exponent(priv, w, i), t, w[i] * priv[i]);
      v := Add(q, v, t);
      i := i + 1;
    }
    dst := Proof(c, v);
    if forall i | 0 <= i < |priv| :: pub[i] == Pow(p, g, priv[i]) {
      ProductIsPower(p, g, priv, pub, w, |pub|);
      AnswerUnblinds(p, q, g, r, v, Exponent(priv, w, |pub|));
    }
  }

  method DhVerify(p: nat, g: nat, hash: Hash, expand: Expand, px: Proof, pub: seq<nat>, m: seq<nat>)
    returns (ok: bool)
    requires Prime(p)
    ensures ok <==> DhAccepts(p, g, hash, expand, px, pub, m)
  {
    ghost var w := Weights(expand, px.c, |pub|);
    var a := Pow(p, g, px.v);
    var curr := 1;
    var i := 0;
    while i < |pub|
      invariant 0 <= i <= |pub|
      invariant curr == PowProduct(p, pub, w, i)
    {
      var t := expand(px.c, |pub|, i);
      t := Pow(p, pub[i], t);
      curr := Mul(p, curr, t);
      i := i + 1;
    }
    curr := Invm(p, curr);
    a := Mul(p, a, curr);
    ok := px.c == hash(a, pub, m);
  }

  lemma MulAssociative(p: nat, a: nat, b: nat, c: nat)
    requires p > 1
    ensures Mul(p, Mul(p, a, b), c) == Mul(p, a, Mul(p, b, c))
  {
    CongMul(p, Mul(p, a, b), a * b, c, c);
    CongMul(p, a, a, Mul(p, b, c), b * c);
    Associate(a, b, c, a * b, b * c);
  }

  lemma {:induction false} PowAdd(p: nat, b: nat, e: nat, f: nat)
    requires p > 1
    ensures Pow(p, b, e + f) == Mul(p, Pow(p, b, e), Pow(p, b, f))
  {
    if f > 0 {
      PowAdd(p, b, e, f - 1);
      MulAssociative(p, Pow(p, b, e), Pow(p, b, f - 1), b);
    }
  }

  /** With PowAdd this makes it the power. */
  lemma PowOne(p: nat, b: nat)
    requires p > 1
    ensures Pow(p, b, 1) == Mod(p, b) && Pow(p, b, 0) == 1
  {
    assert Pow(p, b, 0) == 1;
  }

  lemma {:induction false} PowMul(p: nat, b: nat, e: nat, f: nat)
    requires p > 1
    ensures Pow(p, Pow(p, b, e), f) == Pow(p, b, f * e)
  {
    if f > 0 {
      PowMul(p, b, e, f - 1);
      Distribute(e, f, 1);
      PowAdd(p, b, (f - 1) * e, e);
    }
  }

  lemma {:induction false} OnePow(p: nat, e: nat)
    requires p > 1
    ensures Pow(p, 1, e) == 1
  {
    if e > 0 {
      OnePow(p, e - 1);
    }
  }

  /** Exponents may be reduced modulo the order of the base. */
  lemma PowReduced(p: nat, q: nat, g: nat, e: nat)
    requires p > 1 && q > 1 && Pow(p, g, q) == 1
    ensures Pow(p, g, e) == Pow(p, g, Mod(q, e))
  {
    var k := Multiple(q, e);
    MultipleNonNegative(q, e, k);
    PowMul(p, g, q, k);
    OnePow(p, k);
    PowAdd(p, g, Mod(q, e), q * k);
  }

  lemma MultipleNonNegative(q: nat, e: nat, k: int)
    requires q > 1 && e == Mod(q, e) + q * k
    ensures k >= 0
  {
    if k < 0 {
      assert false;
    }
  }

  /** A power of an element of finite order is never zero. */
  lemma PowNonZero(p: nat, q: nat, g: nat, e: nat)
    requires p > 1 && q > 1 && Pow(p, g, q) == 1
    ensures Pow(p, g, e) != 0
  {
    PowMul(p, g, q, e);
    OnePow(p, e);
    Distribute(e, q, 1);
    PowAdd(p, g, e, e * (q - 1));
    ZeroProduct(p, Pow(p, g, e), Pow(p, g, e * (q - 1)));
  }

  lemma ZeroProduct(p: nat, a: nat, b: nat)
    requires p > 1 && Mul(p, a, b) == 1
    ensures a != 0
  {
  }

  lemma {:induction false} ProductIsPower(p: nat, g: nat, priv: seq<nat>, pub: seq<nat>, w: seq<nat>, n: nat)
    requires p > 1 && n <= |priv| == |pub| && n <= |w| && forall i | 0 <= i < n :: pub[i] == Pow(p, g, priv[i])
    ensures PowProduct(p, pub, w, n) == Pow(p, g, Exponent(priv, w, n))
  {
    if n > 0 {
      ProductIsPower(p, g, priv, pub, w, n - 1);
      PowerStep(p, g, Exponent(priv, w, n - 1), priv[n - 1], w[n - 1]);
    }
  }

  /** One more key: a power of the base to its weight adds weight times key to the exponent. */
  lemma PowerStep(p: nat, g: nat, e: nat, x: nat, w: nat)
    requires p > 1
    ensures Mul(p, Pow(p, g, e), Pow(p, Pow(p, g, x), w)) == Pow(p, g, e + w * x)
  {
    PowMul(p, g, x, w);
    PowAdd(p, g, e, w * x);
  }

  /** The inverse cancels the product, so the verifier recomputes the commitment. */
  lemma AnswerUnblinds(p: nat, q: nat, g: nat, r: nat, v: nat, e: nat)
    requires Prime(p) && q > 1 && Pow(p, g, q) == 1 && Cong(q, v, r + e)
    ensures Unblind(p, Pow(p, g, v), Pow(p, g, e)) == Pow(p, g, r)
  {
    PowNonZero(p, q, g, e);
    AnswerIsPower(p, q, g, r, v, e);
    DivideProduct(p, Pow(p, g, r), Pow(p, g, e), Pow(p, g, v));
  }

  lemma AnswerIsPower(p: nat, q: nat, g: nat, r: nat, v: nat, e: nat)
    requires p > 1 && q > 1 && Pow(p, g, q) == 1 && Cong(q, v, r + e)
    ensures Pow(p, g, v) == Mul(p, Pow(p, g, r), Pow(p, g, e))
  {
    PowCong(p, q, g, v, r + e);
    PowAdd(p, g, r, e);
  }

  lemma PowCong(p: nat, q: nat, g: nat, a: nat, b: nat)
    requires p > 1 && q > 1 && Pow(p, g, q) == 1 && Cong(q, a, b)
    ensures Pow(p, g, a) == Pow(p, g, b)
  {
    PowReduced(p, q, g, a);
    PowReduced(p, q, g, b);
  }

  lemma CancelFactor(p: nat, a: nat, x: nat, y: nat)
    requires Prime(p) && 0 < a < p && x < p && y < p
    ensures Mul(p, a, x) == Mul(p, a, y) <==> x == y
    ensures Mul(p, x, a) == Mul(p, y, a) <==> x == y
  {
    DivideProduct(p, x, a, Mul(p, x, a));
    DivideProduct(p, y, a, Mul(p, y, a));
    Commutes(p, a, x);
    Commutes(p, a, y);
  }

  lemma Commutes(p: nat, a: nat, b: nat)
    requires p > 1
    ensures Mul(p, a, b) == Mul(p, b, a)
  {
    assert a * b == b * a;
  }

  /** The verifier recomputes the commitment exactly when the product of the keys is the power it should be. */
  lemma UnblindsIff(p: nat, q: nat, g: nat, r: nat, v: nat, e: nat, product: nat)
    requires Prime(p) && q > 1 && Pow(p, g, q) == 1 && Cong(q, v, r + e) && product < p
    ensures Unblind(p, Pow(p, g, v), product) == Pow(p, g, r) <==> product == Pow(p, g, e)
  {
    PowNonZero(p, q, g, e);
    PowNonZero(p, q, g, r);
    AnswerIsPower(p, q, g, r, v, e);
    if product != 0 {
      QuotientIs(p, Pow(p, g, r), Pow(p, g, v), product);
      CancelFactor(p, Pow(p, g, r), product, Pow(p, g, e));
    } else {
      assert Mul(p, Pow(p, g, v), 0) == 0;
    }
  }

  lemma QuotientIs(p: nat, r: nat, a: nat, x: nat)
    requires Prime(p) && r < p && a < p && 0 < x < p
    ensures Unblind(p, a, x) == r <==> a == Mul(p, r, x)
  {
    if a == Mul(p, r, x) {
      DivideProduct(p, r, x, a);
    }
    InverseIs(p, x);
    Commutes(p, Inverse(p, x), x);
    MulAssociative(p, a, Inverse(p, x), x);
  }

  /** What acceptance shows modulo p: of a proof made for these private keys, whatever the public keys, the verifier
      accepts it if and only if the weighted product of the public keys is that of the right ones. */
  lemma DhAcceptsIff(p: nat, q: nat, g: nat, hash: Hash, expand: Expand, px: Proof, r: nat, priv: seq<nat>,
                     pub: seq<nat>, m: seq<nat>)
    requires Prime(p) && q > 1 && Pow(p, g, q) == 1 && |priv| == |pub|
    requires px.c == hash(Pow(p, g, r), pub, m) && forall a: nat | a < p && hash(a, pub, m) == px.c :: a == Pow(p, g, r)
    requires Cong(q, px.v, r + Exponent(priv, Weights(expand, px.c, |pub|), |pub|))
    ensures var w := Weights(expand, px.c, |pub|);
            DhAccepts(p, g, hash, expand, px, pub, m)
            <==> PowProduct(p, pub, w, |pub|) == Pow(p, g, Exponent(priv, w, |pub|))
  {
    var w := Weights(expand, px.c, |pub|);
    UnblindsIff(p, q, g, r, px.v, Exponent(priv, w, |pub|), PowProduct(p, pub, w, |pub|));
  }

  lemma WrongStep(p: nat, q: nat, g: nat, e: nat, x: nat, w: nat, key: nat)
    requires Prime(p) && q > 1 && Pow(p, g, q) == 1
    ensures Mul(p, Pow(p, g, e), Pow(p, key, w)) == Pow(p, g, e + w * x) <==> Pow(p, key, w) == Pow(p, Pow(p, g, x), w)
  {
    PowNonZero(p, q, g, e);
    PowerStep(p, g, e, x, w);
    CancelFactor(p, Pow(p, g, e), Pow(p, key, w), Pow(p, Pow(p, g, x), w));
  }

  lemma RightStep(p: nat, q: nat, g: nat, e: nat, x: nat, w: nat, product: nat)
    requires Prime(p) && q > 1 && Pow(p, g, q) == 1 && product < p
    ensures Mul(p, product, Pow(p, Pow(p, g, x), w)) == Pow(p, g, e + w * x) <==> product == Pow(p, g, e)
  {
    PowMul(p, g, x, w);
    PowNonZero(p, q, g, w * x);
    PowerStep(p, g, e, x, w);
    CancelFactor(p, Pow(p, Pow(p, g, x), w), product, Pow(p, g, e));
  }

  lemma {:induction false} ProductOfOneWrong(p: nat, q: nat, g: nat, priv: seq<nat>, pub: seq<nat>, w: seq<nat>,
                                             k: nat, n: nat)
    requires Prime(p) && q > 1 && Pow(p, g, q) == 1 && k < n <= |priv| == |pub| && n <= |w|
    requires forall i | 0 <= i < |pub| && i != k :: pub[i] == Pow(p, g, priv[i])
    ensures PowProduct(p, pub, w, n) == Pow(p, g, Exponent(priv, w, n))
            <==> Pow(p, pub[k], w[k]) == Pow(p, Pow(p, g, priv[k]), w[k])
  {
    if n - 1 == k {
      ProductIsPower(p, g, priv, pub, w, k);
      WrongStep(p, q, g, Exponent(priv, w, k), priv[k], w[k], pub[k]);
    } else {
      ProductOfOneWrong(p, q, g, priv, pub, w, k, n - 1);
      RightStep(p, q, g, Exponent(priv, w, n - 1), priv[n - 1], w[n - 1], PowProduct(p, pub, w, n - 1));
    }
  }

  /** One wrong key modulo p is noticed unless its power to its weight is the right one. */
  lemma DhOneWrongKeyIsNoticed(p: nat, q: nat, g: nat, hash: Hash, expand: Expand, px: Proof, r: nat, priv: seq<nat>,
                               pub: seq<nat>, m: seq<nat>, k: nat, weight: nat)
    requires Prime(p) && q > 1 && Pow(p, g, q) == 1 && k < |priv| == |pub|
    requires forall i | 0 <= i < |pub| && i != k :: pub[i] == Pow(p, g, priv[i])
    requires px.c == hash(Pow(p, g, r), pub, m) && forall a: nat | a < p && hash(a, pub, m) == px.c :: a == Pow(p, g, r)
    requires Cong(q, px.v, r + Exponent(priv, Weights(expand, px.c, |pub|), |pub|))
    requires weight == expand(px.c, |pub|, k)
    ensures DhAccepts(p, g, hash, expand, px, pub, m)
            <==> Pow(p, pub[k], weight) == Pow(p, Pow(p, g, priv[k]), weight)
  {
    DhAcceptsIff(p, q, g, hash, expand, px, r, priv, pub, m);
    var w := Weights(expand, px.c, |pub|);
    assert w[k] == weight;
    ProductOfOneWrong(p, q, g, priv, pub, w, k, |pub|);
  }

  lemma DivideProduct(p: nat, a: nat, x: nat, product: nat)
    requires Prime(p) && a < p && 0 < x < p && product == Mul(p, a, x)
    ensures Unblind(p, product, x) == a
  {
    MulAssociative(p, a, x, Inverse(p, x));
    InverseIs(p, x);
  }
}
