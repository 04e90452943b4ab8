/**
 Whole runs of the socialist millionaires' protocol: the honest exchange of four messages
 decides equality of the secrets, and over arbitrary inputs success is reported only at the
 end of the steps the protocol prescribes.
 */
module SmpRun {
  import opened Prelude
  import opened Smp
  import opened SmpProofs
  import opened Zq

  // ------------------------------------------------------- the honest exchange

  /** What each side is left with, and reports, after message 4. */
  datatype Verdicts = Verdicts(initiator: Outcome, responder: Outcome)

  /**
   One complete exchange from the given states: the initiator starts with secret x, the
   responder is asked and provides y. Any step that does not produce the next message ends it.
   */
  function Exchange(q: nat, hash: Hash, a: State, b: State, x: nat, y: nat, question: Option<seq<nat>>,
                    ka: Coins, kb: Coins, ka': Coins, kb': Coins): Option<Verdicts>
    requires q > 1
  {
    var (a1, t1) := Initiate(q, hash, a, x, question, ka);
    var o1 := Process(q, hash, b, t1, kb);
    if o1.event != AskForAnswer || o1.st.message1.None? then None else
      var (b1, t2) := Provide(q, hash, o1.st, y, kb);
      if t2.None? then None else
        var o2 := Process(q, hash, a1, t2.value, ka');
        if o2.event != InProgress || o2.reply.None? then None else
          var o3 := Process(q, hash, b1, o2.reply.value, kb');
          if o3.reply.None? then None else
            Some(Verdicts(Process(q, hash, o2.st, o3.reply.value, ka'), o3))
  }

  predicate Concluded(o: Outcome, verdict: bool) {
    o.event == (if verdict then Success else Failure) && o.st.awaits == E1 && o.st.progress == 100
  }

  // The public parts of the honest messages 2 to 4.

  predicate Pair(q: nat, p: nat, d: nat, g2: nat, g3: nat, secret: nat, r: nat)
    requires q > 1
  {
    p == Mul(q, g3, r) && d == Blind(q, g2, r, Mod(q, secret))
  }

  lemma ResponderAsked(q: nat, hash: Hash, b: State, question: Option<seq<nat>>, ka: Coins, k: Coins)
    requires q > 1 && b.awaits == E1
    ensures var m1 := MakeMessage1(q, hash, question, ka);
            Process(q, hash, b, Msg1(Some(m1)), k)
            == Outcome(b.(message1 := Some(m1), progress := 25), AskForAnswer, None)
  {
    HonestMessage1(q, hash, question, ka);
  }

  lemma ResponderProvides(q: nat, hash: Hash, b: State, m1: Message1, y: nat, k: Coins, a2: nat, a3: nat)
    returns (b': State, m2: Message2)
    requires q > 1 && b.awaits == E1 && b.message1 == Some(m1)
    requires m1.g2a == Mul(q, 1, a2) && m1.g3a == Mul(q, 1, a3)
    ensures Provide(q, hash, b, y, k) == (b', Some(Msg2(Some(m2))))
    ensures b'.awaits == E3 && b'.b3 == k.x3 && b'.g3a == Mul(q, 1, a3) && b'.pb == m2.pb && b'.qb == m2.qb
    ensures b'.g2 == Shared(q, a2, k.x2) && b'.g3 == Shared(q, a3, k.x3)
    ensures m2.g2b == Mul(q, 1, k.x2) && m2.g3b == Mul(q, 1, k.x3) && Valid2(q, hash, b'.g2, b'.g3, m2)
    ensures Pair(q, m2.pb, m2.qb, b'.g2, b'.g3, y, k.r4)
  {
    var g2, g3 := Mul(q, m1.g2a, k.x2), Mul(q, m1.g3a, k.x3);
    m2 := MakeMessage2(q, hash, y, g2, g3, k);
    b' := Provide(q, hash, b, y, k).0;
    HonestMessage2(q, hash, y, g2, g3, k);
  }

  lemma InitiatorAnswers(q: nat, hash: Hash, a: State, b2: nat, b3: nat, m2: Message2, k: Coins)
    returns (a': State, m3: Message3)
    requires q > 1 && a.awaits == E2 && m2.g2b == Mul(q, 1, b2) && m2.g3b == Mul(q, 1, b3)
    requires Valid2(q, hash, Shared(q, a.a2, b2), Shared(q, a.a3, b3), m2)
    ensures Process(q, hash, a, Msg2(Some(m2)), k) == Outcome(a', InProgress, Some(Msg3(Some(m3))))
    ensures a'.awaits == E4 && a'.a3 == a.a3 && a'.g3b == m2.g3b
    ensures a'.paPb == Sub(q, m3.pa, m2.pb) && a'.qaQb == Sub(q, m3.qa, m2.qb) && m3.ra == Mul(q, a'.qaQb, a.a3)
    ensures Pair(q, m3.pa, m3.qa, Shared(q, a.a2, b2), Shared(q, a.a3, b3), a.secret, k.r4)
    ensures Valid3(q, hash, Shared(q, a.a2, b2), Shared(q, a.a3, b3), Mul(q, 1, a.a3), m2.qb, m3)
  {
    SharedGenerator(q, a.a2, b2);
    SharedGenerator(q, a.a3, b3);
    var g2, g3 := Shared(q, a.a2, b2), Shared(q, a.a3, b3);
    m3 := MakeMessage3(q, hash, a.secret, a.a3, g2, g3, m2, k);
    a' := Process(q, hash, a, Msg2(Some(m2)), k).st;
    HonestMessage3(q, hash, a.secret, a.a3, g2, g3, m2, k);
  }

  lemma ResponderReplies(q: nat, hash: Hash, b: State, m3: Message3, k: Coins) returns (m4: Message4)
    requires q > 1 && b.awaits == E3 && Valid3(q, hash, b.g2, b.g3, b.g3a, b.qb, m3)
    ensures var o := Process(q, hash, b, Msg3(Some(m3)), k);
            && Concluded(o, Sub(q, m3.pa, b.pb) == Mul(q, m3.ra, b.b3)) && o.reply == Some(Msg4(Some(m4)))
    ensures m4.rb == Mul(q, Sub(q, m3.qa, b.qb), b.b3)
    ensures Valid4(q, hash, Mul(q, 1, b.b3), Sub(q, m3.qa, b.qb), m4)
  {
    m4 := MakeMessage4(q, hash, b.b3, b.qb, m3, k);
    HonestMessage4(q, hash, b.b3, b.qb, m3, k);
  }

  lemma InitiatorConcludes(q: nat, hash: Hash, a: State, m4: Message4, k: Coins)
    requires q > 1 && a.awaits == E4 && Valid4(q, hash, a.g3b, a.qaQb, m4)
    ensures Concluded(Process(q, hash, a, Msg4(Some(m4)), k), a.paPb == Mul(q, m4.rb, a.a3))
  {
  }

  /**
   From any states in which both sides expect a first message, an honest exchange completes,
   both sides report the same verdict, and it is success exactly when the secrets agree
   modulo q (or a private exponent was drawn as zero).
   */
  lemma ExchangeDecidesEquality(q: nat, hash: Hash, a: State, b: State, x: nat, y: nat,
                                question: Option<seq<nat>>, ka: Coins, kb: Coins, ka': Coins, kb': Coins)
    requires Prime(q) && a.awaits == E1 && b.awaits == E1
    ensures var v := Exchange(q, hash, a, b, x, y, question, ka, kb, ka', kb');
            var equal := Indistinguishable(q, x, y, ka.x2, ka.x3, kb.x2, kb.x3);
            v.Some? && Concluded(v.value.initiator, equal) && Concluded(v.value.responder, equal)
  {
    var (a1, t1) := Initiate(q, hash, a, x, question, ka);
    ResponderAsked(q, hash, b, question, ka, kb);
    var m1 := t1.m1.value;
    var b1 := b.(message1 := Some(m1), progress := 25);
    var b2, m2 := ResponderProvides(q, hash, b1, m1, y, kb, ka.x2, ka.x3);
    var a2, m3 := InitiatorAnswers(q, hash, a1, kb.x2, kb.x3, m2, ka');
    var m4 := ResponderReplies(q, hash, b2, m3, kb');
    InitiatorConcludes(q, hash, a2, m4, ka');
    var d := Sub(q, m3.qa, m2.qb);
    ComparisonDecides(q, ka.x2, ka.x3, kb.x2, kb.x3, Mod(q, x), Mod(q, y), ka'.r4, kb.r4, b2.g2, b2.g3,
                      Sub(q, m3.pa, m2.pb), d, ka.x3, kb.x3);
    ComparisonDecides(q, ka.x2, ka.x3, kb.x2, kb.x3, Mod(q, x), Mod(q, y), ka'.r4, kb.r4, b2.g2, b2.g3,
                      Sub(q, m3.pa, m2.pb), d, kb.x3, ka.x3);
  }
}
