/**
 One party of the socialist millionaires' protocol under every sequence of inputs: success is
 reported only as the last of the steps the protocol prescribes, each with its proofs
 verified, and every concluding event leaves the party ready for a fresh exchange.
 */
module SmpSafety {
  import opened Prelude
  import opened Smp
  import opened SmpProofs
  import opened SmpRun
  import opened Zq

  datatype Input =
    | Start(secret: nat, question: Option<seq<nat>>, k: Coins)
    | Answered(secret: nat, k: Coins)
    | Arrive(tlv: Tlv, k: Coins)
    | GiveUp

  /**
   One input. The source follows a null pointer when an answer is given before any message 1
   has arrived; here nothing happens then.
   */
  function Step(q: nat, hash: Hash, st: State, input: Input): Outcome
    requires q > 1
  {
    match input
    case Start(secret, question, k) =>
      var (st', tlv) := Initiate(q, hash, st, secret, question, k);
      Outcome(st', if tlv.Msg1? then InProgress else NoEvent, Some(tlv))
    case Answered(secret, k) =>
      if !MayAnswer(st) then Outcome(st, NoEvent, None) else
        var (st', tlv) := Provide(q, hash, st, secret, k);
        Outcome(st', if tlv.Some? then InProgress else NoEvent, tlv)
    case Arrive(tlv, k) => Process(q, hash, st, tlv, k)
    case GiveUp => Outcome(st.(awaits := E1), NoEvent, Some(AbortTlv))
  }

  /** The state after the first n inputs. */
  function StateAt(q: nat, hash: Hash, inputs: seq<Input>, n: nat): State
    requires q > 1 && n <= |inputs|
  {
    if n == 0 then INITIAL else Step(q, hash, StateAt(q, hash, inputs, n - 1), inputs[n - 1]).st
  }

  predicate Concluding(event: Event) {
    event == Success || event == Failure || event == Error || event == Aborted
  }

  /** Every concluding event returns the party to the start of the protocol. */
  lemma ConcludingReturnsToStart(q: nat, hash: Hash, st: State, input: Input)
    requires q > 1
    ensures var o := Step(q, hash, st, input);
            && (Concluding(o.event) ==> o.st.awaits == E1)
            && (o.event == Aborted ==> o.st.progress == 0)
            && (o.event == Success || o.event == Failure ==> o.st.progress == 100)
  {
    match input
    case Arrive(tlv, k) =>
      match tlv {
        case Msg1(body) =>
        case Msg2(body) =>
        case Msg3(body) =>
        case Msg4(body) =>
        case AbortTlv =>
        case OtherTlv =>
      }
    case _ =>
  }

  /** What a step out of each waiting state can do: leave the state alone, advance, or reset. */
  lemma WaitingStep(q: nat, hash: Hash, st: State, input: Input)
    requires q > 1
    ensures var st' := Step(q, hash, st, input).st;
            && (st'.awaits == E2 ==> st' == st || (st.awaits == E1 && input.Start?))
            && (st'.awaits == E3 ==> st' == st || (st.awaits == E1 && input.Answered? && st.message1.Some?))
            && (st'.awaits == E4 ==> st' == st || (st.awaits == E2 && input.Arrive? && input.tlv.Msg2?))
            && (st'.message1 == st.message1
                || (st.awaits == E1 && input.Arrive? && input.tlv.Msg1? && input.tlv.m1.Some?
                    && st'.message1 == input.tlv.m1 && Valid1(q, hash, input.tlv.m1.value)))
  {
    match input
    case Arrive(tlv, k) =>
      match tlv {
        case Msg1(body) =>
        case Msg2(body) =>
        case Msg3(body) =>
        case Msg4(body) =>
        case AbortTlv =>
        case OtherTlv =>
      }
    case _ =>
  }

  /** A party waiting for message 2 has started, and nothing has changed since. */
  lemma {:induction false} StartedBefore(q: nat, hash: Hash, inputs: seq<Input>, n: nat) returns (i: nat)
    requires q > 1 && n <= |inputs| && StateAt(q, hash, inputs, n).awaits == E2
    ensures i < n && inputs[i].Start? && StateAt(q, hash, inputs, i).awaits == E1
    ensures StateAt(q, hash, inputs, n) == StateAt(q, hash, inputs, i + 1)
  {
    var st := StateAt(q, hash, inputs, n - 1);
    WaitingStep(q, hash, st, inputs[n - 1]);
    if st.awaits == E2 {
      i := StartedBefore(q, hash, inputs, n - 1);
    } else {
      i := n - 1;
    }
  }

  /** A party waiting for message 3 has answered, and nothing has changed since. */
  lemma {:induction false} AnsweredBefore(q: nat, hash: Hash, inputs: seq<Input>, n: nat) returns (i: nat)
    requires q > 1 && n <= |inputs| && StateAt(q, hash, inputs, n).awaits == E3
    ensures i < n && inputs[i].Answered? && StateAt(q, hash, inputs, i).awaits == E1
    ensures StateAt(q, hash, inputs, i).message1.Some?
    ensures StateAt(q, hash, inputs, n) == StateAt(q, hash, inputs, i + 1)
  {
    var st := StateAt(q, hash, inputs, n - 1);
    WaitingStep(q, hash, st, inputs[n - 1]);
    if st.awaits == E3 {
      i := AnsweredBefore(q, hash, inputs, n - 1);
    } else {
      i := n - 1;
    }
  }

  /** A party waiting for message 4 has accepted message 2, and nothing has changed since. */
  lemma {:induction false} RepliedBefore(q: nat, hash: Hash, inputs: seq<Input>, n: nat) returns (j: nat)
    requires q > 1 && n <= |inputs| && StateAt(q, hash, inputs, n).awaits == E4
    ensures j < n && inputs[j].Arrive? && inputs[j].tlv.Msg2? && StateAt(q, hash, inputs, j).awaits == E2
    ensures StateAt(q, hash, inputs, n) == StateAt(q, hash, inputs, j + 1)
  {
    var st := StateAt(q, hash, inputs, n - 1);
    WaitingStep(q, hash, st, inputs[n - 1]);
    if st.awaits == E4 {
      j := RepliedBefore(q, hash, inputs, n - 1);
    } else {
      j := n - 1;
    }
  }

  /** A stored message 1 arrived, verified, while the party was at the start. */
  lemma {:induction false} AskedBefore(q: nat, hash: Hash, inputs: seq<Input>, n: nat) returns (h: nat)
    requires q > 1 && n <= |inputs| && StateAt(q, hash, inputs, n).message1.Some?
    ensures h < n && inputs[h].Arrive? && inputs[h].tlv == Msg1(StateAt(q, hash, inputs, n).message1)
    ensures StateAt(q, hash, inputs, h).awaits == E1
    ensures Valid1(q, hash, StateAt(q, hash, inputs, n).message1.value)
  {
    var st := StateAt(q, hash, inputs, n - 1);
    WaitingStep(q, hash, st, inputs[n - 1]);
    if StateAt(q, hash, inputs, n).message1 == st.message1 {
      h := AskedBefore(q, hash, inputs, n - 1);
    } else {
      h := n - 1;
    }
  }

  /** The initiator's history at a success: started, accepted message 2, accepted message 4. */
  ghost predicate InitiatedInOrder(q: nat, hash: Hash, inputs: seq<Input>, n: nat, i: nat, j: nat)
    requires q > 1 && n < |inputs|
  {
    && i < j < n
    && inputs[i].Start? && StateAt(q, hash, inputs, i).awaits == E1
    && inputs[j].Arrive? && inputs[j].tlv.Msg2? && inputs[j].tlv.m2.Some?
    && inputs[n].Arrive? && inputs[n].tlv.Msg4? && inputs[n].tlv.m4.Some?
    && var k, m2, m4 := inputs[i].k, inputs[j].tlv.m2.value, inputs[n].tlv.m4.value;
    var g2, g3 := Mul(q, m2.g2b, k.x2), Mul(q, m2.g3b, k.x3);
    var m3 := MakeMessage3(q, hash, inputs[i].secret, k.x3, g2, g3, m2, inputs[j].k);
    && Valid2(q, hash, g2, g3, m2)
    && Valid4(q, hash, m2.g3b, Sub(q, m3.qa, m2.qb), m4)
    && Sub(q, m3.pa, m2.pb) == Mul(q, m4.rb, k.x3)
    && StateAt(q, hash, inputs, j) == StateAt(q, hash, inputs, i + 1)
    && StateAt(q, hash, inputs, n) == StateAt(q, hash, inputs, j + 1)
  }

  /** The responder's history at a success: accepted message 1, answered, accepted message 3. */
  ghost predicate RespondedInOrder(q: nat, hash: Hash, inputs: seq<Input>, n: nat, h: nat, i: nat)
    requires q > 1 && n < |inputs|
  {
    && h < i < n
    && inputs[h].Arrive? && inputs[h].tlv.Msg1? && inputs[h].tlv.m1.Some?
    && StateAt(q, hash, inputs, h).awaits == E1
    && inputs[i].Answered? && StateAt(q, hash, inputs, i).awaits == E1
    && inputs[n].Arrive? && inputs[n].tlv.Msg3? && inputs[n].tlv.m3.Some?
    && var k, m1, m3 := inputs[i].k, inputs[h].tlv.m1.value, inputs[n].tlv.m3.value;
    var g2, g3 := Mul(q, m1.g2a, k.x2), Mul(q, m1.g3a, k.x3);
    var m2 := MakeMessage2(q, hash, inputs[i].secret, g2, g3, k);
    && Valid1(q, hash, m1)
    && Valid3(q, hash, g2, g3, m1.g3a, m2.qb, m3)
    && Sub(q, m3.pa, m2.pb) == Mul(q, m3.ra, k.x3)
    && StateAt(q, hash, inputs, n) == StateAt(q, hash, inputs, i + 1)
  }

  lemma SuccessFrom(q: nat, hash: Hash, st: State, input: Input)
    requires q > 1 && Step(q, hash, st, input).event == Success
    ensures input.Arrive?
    ensures || (input.tlv.Msg3? && input.tlv.m3.Some? && st.awaits == E3
                && Valid3(q, hash, st.g2, st.g3, st.g3a, st.qb, input.tlv.m3.value)
                && Sub(q, input.tlv.m3.value.pa, st.pb) == Mul(q, input.tlv.m3.value.ra, st.b3))
            || (input.tlv.Msg4? && input.tlv.m4.Some? && st.awaits == E4
                && Valid4(q, hash, st.g3b, st.qaQb, input.tlv.m4.value)
                && st.paPb == Mul(q, input.tlv.m4.value.rb, st.a3))
  {
  }

  /** What the step that accepts message 2 leaves behind. */
  lemma ReplyLeaves(q: nat, hash: Hash, st: State, input: Input)
    requires q > 1 && st.awaits == E2 && input.Arrive? && input.tlv.Msg2?
    requires Step(q, hash, st, input).st.awaits == E4
    ensures input.tlv.m2.Some?
    ensures var st', m2 := Step(q, hash, st, input).st, input.tlv.m2.value;
            var g2, g3 := Mul(q, m2.g2b, st.a2), Mul(q, m2.g3b, st.a3);
            var m3 := MakeMessage3(q, hash, st.secret, st.a3, g2, g3, m2, input.k);
            && Valid2(q, hash, g2, g3, m2)
            && st'.g3b == m2.g3b && st'.a3 == st.a3
            && st'.paPb == Sub(q, m3.pa, m2.pb) && st'.qaQb == Sub(q, m3.qa, m2.qb)
  {
  }

  /** Success is reported only by a party that took the steps of its role in order. */
  lemma SuccessOnlyInOrder(q: nat, hash: Hash, inputs: seq<Input>, n: nat)
    requires q > 1 && n < |inputs|
    requires Step(q, hash, StateAt(q, hash, inputs, n), inputs[n]).event == Success
    ensures || (exists i: nat, j: nat :: InitiatedInOrder(q, hash, inputs, n, i, j))
            || (exists h: nat, i: nat :: RespondedInOrder(q, hash, inputs, n, h, i))
  {
    var st := StateAt(q, hash, inputs, n);
    SuccessFrom(q, hash, st, inputs[n]);
    if inputs[n].tlv.Msg4? {
      var j := RepliedBefore(q, hash, inputs, n);
      var i := StartedBefore(q, hash, inputs, j);
      ReplyLeaves(q, hash, StateAt(q, hash, inputs, j), inputs[j]);
      assert InitiatedInOrder(q, hash, inputs, n, i, j);
    } else {
      var i := AnsweredBefore(q, hash, inputs, n);
      var h := AskedBefore(q, hash, inputs, i);
      assert RespondedInOrder(q, hash, inputs, n, h, i);
    }
  }

  /** After any concluding events on the two sides, a fresh honest exchange decides equality. */
  lemma FreshExchangeAfterConclusion(q: nat, hash: Hash, before: (State, State), last: (Input, Input), x: nat, y: nat,
                                     question: Option<seq<nat>>, ka: Coins, kb: Coins, ka': Coins, kb': Coins)
    requires Prime(q)
    requires Concluding(Step(q, hash, before.0, last.0).event) && Concluding(Step(q, hash, before.1, last.1).event)
    ensures var v := Exchange(q, hash, Step(q, hash, before.0, last.0).st, Step(q, hash, before.1, last.1).st,
                              x, y, question, ka, kb, ka', kb');
            && v.Some?
            && (v.value.initiator.event == Success <==> Indistinguishable(q, x, y, ka.x2, ka.x3, kb.x2, kb.x3))
            && (v.value.responder.event == Success <==> Indistinguishable(q, x, y, ka.x2, ka.x3, kb.x2, kb.x3))
  {
    ConcludingReturnsToStart(q, hash, before.0, last.0);
    ConcludingReturnsToStart(q, hash, before.1, last.1);
    ExchangeDecidesEquality(q, hash, Step(q, hash, before.0, last.0).st, Step(q, hash, before.1, last.1).st,
                            x, y, question, ka, kb, ka', kb');
  }

  /**
   Starting in mid-protocol sends an abort but changes nothing: the peer returns to the
   start while this side goes on waiting, and aborts on the peer's next message.
   */
  lemma BusyStartDesynchronizes(q: nat, hash: Hash, st: State, peer: State, secret: nat,
                                question: Option<seq<nat>>, k: Coins)
    requires q > 1 && st.awaits != E1
    ensures var o := Step(q, hash, st, Start(secret, question, k));
            && o.st == st && o.reply == Some(AbortTlv)
            && Process(q, hash, peer, AbortTlv, k).st.awaits == E1
            && forall m1, k' :: Process(q, hash, o.st, Msg1(m1), k').event == Aborted
  {
  }
}
