/**
 The socialist millionaires' protocol of src/smp_protocol.c and src/smp.c on values: the
 messages, the proofs they carry, and one party's state transitions. Points and scalars live
 in Zq; hash_to_scalar is an arbitrary function of the usage byte and the points, reduced
 modulo q; random scalars are parameters. Every element of the group is a valid point, the
 identity included, so the point checks reduce to decoding.
 */
module Smp {
  import opened Prelude
  import opened Schnorr
  import opened Zq

  type Hash = (nat, seq<nat>) -> nat

  datatype Message1 = Message1(question: Option<seq<nat>>, g2a: nat, c2: nat, d2: nat, g3a: nat, c3: nat, d3: nat)

  datatype Message2 = Message2(g2b: nat, c2: nat, d2: nat, g3b: nat, c3: nat, d3: nat,
                               pb: nat, qb: nat, cp: nat, d5: nat, d6: nat)

  datatype Message3 = Message3(pa: nat, qa: nat, cp: nat, d5: nat, d6: nat, ra: nat, cr: nat, d7: nat)

  datatype Message4 = Message4(rb: nat, cr: nat, d7: nat)

  /** A TLV by its type; the body is None when it does not deserialize. */
  datatype Tlv =
    | Msg1(m1: Option<Message1>)
    | Msg2(m2: Option<Message2>)
    | Msg3(m3: Option<Message3>)
    | Msg4(m4: Option<Message4>)
    | AbortTlv
    | OtherTlv

  datatype Expect = E1 | E2 | E3 | E4

  datatype Event = NoEvent | AskForAnswer | InProgress | Success | Failure | Aborted | Error

  /** The random scalars of one step; each step uses the ones its formulas name. */
  datatype Coins = Coins(x2: nat, x3: nat, r2: nat, r3: nat, r4: nat, r5: nat, r6: nat, r7: nat)

  datatype State = State(awaits: Expect, progress: nat, secret: nat, a2: nat, a3: nat, b3: nat, g2: nat, g3: nat,
                         g3a: nat, g3b: nat, pb: nat, qb: nat, paPb: nat, qaQb: nat, message1: Option<Message1>)

  const INITIAL := State(E1, 0, 0, 0, 0, 0, 0, 0, 0, 0, 0, 0, 0, 0, None)

  function ToScalar(q: nat, hash: Hash, usage: nat, points: seq<nat>): (c: nat)
    requires q > 1
    ensures c < q
  {
    Mod(q, hash(usage, points))
  }

  // ------------------------------------------------------------ the messages

  function MakeMessage1(q: nat, hash: Hash, question: Option<seq<nat>>, k: Coins): Message1
    requires q > 1
  {
    var c2 := ToScalar(q, hash, 1, [Mul(q, 1, k.r2)]);
    var c3 := ToScalar(q, hash, 2, [Mul(q, 1, k.r3)]);
    Message1(question, Mul(q, 1, k.x2), c2, Answer(q, k.r2, k.x2, c2),
             Mul(q, 1, k.x3), c3, Answer(q, k.r3, k.x3, c3))
  }

  /** G * r + G2 * s, the second component of the pair P, Q. */
  function Blind(q: nat, g2: nat, r: nat, s: nat): nat
    requires q > 1
  {
    Add(q, Mul(q, 1, r), Mul(q, g2, s))
  }

  function MakeMessage2(q: nat, hash: Hash, secret: nat, g2: nat, g3: nat, k: Coins): Message2
    requires q > 1
  {
    var c2 := ToScalar(q, hash, 3, [Mul(q, 1, k.r2)]);
    var c3 := ToScalar(q, hash, 4, [Mul(q, 1, k.r3)]);
    var y := Mod(q, secret);
    var cp := ToScalar(q, hash, 5, [Mul(q, g3, k.r5), Blind(q, g2, k.r5, k.r6)]);
    Message2(Mul(q, 1, k.x2), c2, Answer(q, k.r2, k.x2, c2), Mul(q, 1, k.x3), c3, Answer(q, k.r3, k.x3, c3),
             Mul(q, g3, k.r4), Blind(q, g2, k.r4, y), cp, Answer(q, k.r5, k.r4, cp), Answer(q, k.r6, y, cp))
  }

  function MakeMessage3(q: nat, hash: Hash, secret: nat, a3: nat, g2: nat, g3: nat, m2: Message2, k: Coins): Message3
    requires q > 1
  {
    var x := Mod(q, secret);
    var qa := Blind(q, g2, k.r4, x);
    var cp := ToScalar(q, hash, 6, [Mul(q, g3, k.r5), Blind(q, g2, k.r5, k.r6)]);
    var qaQb := Sub(q, qa, m2.qb);
    var cr := ToScalar(q, hash, 7, [Mul(q, 1, k.r7), Mul(q, qaQb, k.r7)]);
    Message3(Mul(q, g3, k.r4), qa, cp, Answer(q, k.r5, k.r4, cp), Answer(q, k.r6, x, cp),
             Mul(q, qaQb, a3), cr, Answer(q, k.r7, a3, cr))
  }

  function MakeMessage4(q: nat, hash: Hash, b3: nat, qb: nat, m3: Message3, k: Coins): Message4
    requires q > 1
  {
    var qaQb := Sub(q, m3.qa, qb);
    var cr := ToScalar(q, hash, 8, [Mul(q, 1, k.r7), Mul(q, qaQb, k.r7)]);
    Message4(Mul(q, qaQb, b3), cr, Answer(q, k.r7, b3, cr))
  }

  // -------------------------------------------------------------- the proofs

  predicate Valid1(q: nat, hash: Hash, m: Message1)
    requires q > 1
  {
    && ToScalar(q, hash, 1, [Recommit(q, 1, m.g2a, m.c2, m.d2)]) == m.c2
    && ToScalar(q, hash, 2, [Recommit(q, 1, m.g3a, m.c3, m.d3)]) == m.c3
  }

  /** G * d5 + G2 * d6 + Q * c. */
  function Reblind(q: nat, g2: nat, p: nat, c: nat, d5: nat, d6: nat): nat
    requires q > 1
  {
    Add(q, Recommit(q, g2, p, c, d6), Mul(q, 1, d5))
  }

  predicate Valid2(q: nat, hash: Hash, g2: nat, g3: nat, m: Message2)
    requires q > 1
  {
    && ToScalar(q, hash, 3, [Recommit(q, 1, m.g2b, m.c2, m.d2)]) == m.c2
    && ToScalar(q, hash, 4, [Recommit(q, 1, m.g3b, m.c3, m.d3)]) == m.c3
    && ToScalar(q, hash, 5, [Recommit(q, g3, m.pb, m.cp, m.d5), Reblind(q, g2, m.qb, m.cp, m.d5, m.d6)]) == m.cp
  }

  predicate Valid3(q: nat, hash: Hash, g2: nat, g3: nat, g3a: nat, qb: nat, m: Message3)
    requires q > 1
  {
    && ToScalar(q, hash, 6, [Recommit(q, g3, m.pa, m.cp, m.d5), Reblind(q, g2, m.qa, m.cp, m.d5, m.d6)]) == m.cp
    && ToScalar(q, hash, 7, [Recommit(q, 1, g3a, m.cr, m.d7), Recommit(q, Sub(q, m.qa, qb), m.ra, m.cr, m.d7)])
       == m.cr
  }

  predicate Valid4(q: nat, hash: Hash, g3b: nat, qaQb: nat, m: Message4)
    requires q > 1
  {
    ToScalar(q, hash, 8, [Recommit(q, 1, g3b, m.cr, m.d7), Recommit(q, qaQb, m.rb, m.cr, m.d7)]) == m.cr
  }

  // -------------------------------------------------------- the transitions

  /** otrng_smp_initiate: message 1, or an abort TLV (and nothing else) in mid-protocol. */
  function Initiate(q: nat, hash: Hash, st: State, secret: nat, question: Option<seq<nat>>, k: Coins): (State, Tlv)
    requires q > 1
  {
    if st.awaits != E1 then
      (st, AbortTlv)
    else
      (st.(secret := secret, a2 := k.x2, a3 := k.x3, awaits := E2, progress := 25),
       Msg1(Some(MakeMessage1(q, hash, question, k))))
  }

  /** Answering before any message 1 has come follows a null pointer, unless this side is waiting. */
  predicate MayAnswer(st: State) { st.awaits == E1 ==> st.message1.Some? }

  /** otrng_smp_provide_secret: message 2 in answer to the stored message 1. */
  function Provide(q: nat, hash: Hash, st: State, secret: nat, k: Coins): (State, Option<Tlv>)
    requires q > 1 && MayAnswer(st)
  {
    if st.awaits != E1 then
      (st, None)
    else
      var m1 := st.message1.value;
      var g2, g3 := Mul(q, m1.g2a, k.x2), Mul(q, m1.g3a, k.x3);
      var m2 := MakeMessage2(q, hash, secret, g2, g3, k);
      (st.(secret := secret, b3 := k.x3, g2 := g2, g3 := g3, g3a := m1.g3a, pb := m2.pb, qb := m2.qb,
           awaits := E3, progress := 50),
       Some(Msg2(Some(m2))))
  }

  datatype Outcome = Outcome(st: State, event: Event, reply: Option<Tlv>)

  function Receive1(q: nat, hash: Hash, st: State, body: Option<Message1>): Outcome
    requires q > 1
  {
    if st.awaits != E1 then
      Outcome(st.(progress := 0), Aborted, None)
    else if body.None? || !Valid1(q, hash, body.value) then
      Outcome(st, Error, None)
    else
      Outcome(st.(message1 := body, progress := 25), AskForAnswer, None)
  }

  function Receive2(q: nat, hash: Hash, st: State, body: Option<Message2>, k: Coins): Outcome
    requires q > 1
  {
    if st.awaits != E2 then
      Outcome(st.(progress := 0), Aborted, None)
    else if body.None? then
      Outcome(st, Error, None)
    else
      var m2 := body.value;
      var mid := st.(g2 := Mul(q, m2.g2b, st.a2), g3 := Mul(q, m2.g3b, st.a3));
      if !Valid2(q, hash, mid.g2, mid.g3, m2) then
        Outcome(mid, Error, None)
      else
        var m3 := MakeMessage3(q, hash, mid.secret, mid.a3, mid.g2, mid.g3, m2, k);
        Outcome(mid.(g3b := m2.g3b, paPb := Sub(q, m3.pa, m2.pb), qaQb := Sub(q, m3.qa, m2.qb),
                     awaits := E4, progress := 50),
                NoEvent, Some(Msg3(Some(m3))))
  }

  function Receive3(q: nat, hash: Hash, st: State, body: Option<Message3>, k: Coins): Outcome
    requires q > 1
  {
    if st.awaits != E3 then
      Outcome(st.(progress := 0), Aborted, None)
    else if body.None? || !Valid3(q, hash, st.g2, st.g3, st.g3a, st.qb, body.value) then
      Outcome(st, Error, None)
    else
      var m3 := body.value;
      var m4 := MakeMessage4(q, hash, st.b3, st.qb, m3, k);
      var equal := Sub(q, m3.pa, st.pb) == Mul(q, m3.ra, st.b3);
      Outcome(st.(awaits := E1, progress := 100), if equal then Success else Failure, Some(Msg4(Some(m4))))
  }

  function Receive4(q: nat, hash: Hash, st: State, body: Option<Message4>): Outcome
    requires q > 1
  {
    if st.awaits != E4 then
      Outcome(st.(progress := 0), Aborted, None)
    else if body.None? || !Valid4(q, hash, st.g3b, st.qaQb, body.value) then
      Outcome(st, Error, None)
    else
      var equal := st.paPb == Mul(q, body.value.rb, st.a3);
      Outcome(st.(awaits := E1, progress := 100), if equal then Success else Failure, None)
  }

  /** The part of otrng_process_smp that follows the handling of a message. */
  function Settle(o: Outcome): Outcome {
    match o.event
    case Aborted => Outcome(o.st.(awaits := E1, progress := 0), Aborted, Some(AbortTlv))
    case Error => Outcome(o.st.(awaits := E1), Error, o.reply)
    case Failure => Outcome(o.st.(awaits := E1), Failure, o.reply)
    case NoEvent => Outcome(o.st, InProgress, o.reply)
    case _ => o
  }

  /** otrng_process_smp. */
  function Process(q: nat, hash: Hash, st: State, tlv: Tlv, k: Coins): Outcome
    requires q > 1
  {
    match tlv
    case Msg1(body) => Settle(Receive1(q, hash, st, body))
    case Msg2(body) => Settle(Receive2(q, hash, st, body, k))
    case Msg3(body) => Settle(Receive3(q, hash, st, body, k))
    case Msg4(body) => Settle(Receive4(q, hash, st, body))
    case AbortTlv => Outcome(st.(awaits := E1, progress := 0), Aborted, None)
    case OtherTlv => Outcome(st, InProgress, None)
  }
}
