/**
 The smp_protocol_s object: its fields are written in place in the order of the source, and
 every method is proved to take the transition of module Smp.
 */
module SmpMachine {
  import opened Prelude
  import opened Zq
  import Smp

  class SmpProtocol {
    var awaits: Smp.Expect
    var secret: nat
    var a2: nat
    var a3: nat
    var b3: nat
    var g2: nat
    var g3: nat
    var g3a: nat
    var g3b: nat
    var pb: nat
    var qb: nat
    var paPb: nat
    var qaQb: nat
    var progress: nat
    var message1: Option<Smp.Message1>

    function State(): Smp.State
      reads this
    {
      Smp.State(awaits, progress, secret, a2, a3, b3, g2, g3, g3a, g3b, pb, qb, paPb, qaQb, message1)
    }

    constructor ()
      ensures State() == Smp.INITIAL
    {
      awaits, progress, message1 := Smp.E1, 0, None;
      secret, a2, a3, b3, g2, g3, g3a, g3b, pb, qb, paPb, qaQb := 0, 0, 0, 0, 0, 0, 0, 0, 0, 0, 0, 0;
    }

    /** otrng_smp_initiate, with the secret already hashed. */
    method Initiate(q: nat, hash: Smp.Hash, x: nat, question: Option<seq<nat>>, k: Smp.Coins) returns (tlv: Smp.Tlv)
      requires q > 1
      modifies this
      ensures (State(), tlv) == Smp.Initiate(q, hash, old(State()), x, question, k)
    {
      if awaits != Smp.E1 {
        return Smp.AbortTlv;
      }
      secret := x;
      var msg := GenerateMessage1(q, hash, question, k);
      awaits := Smp.E2;
      progress := 25;
      tlv := Smp.Msg1(Some(msg));
      assert State() == old(State()).(secret := x, a2 := k.x2, a3 := k.x3, awaits := Smp.E2, progress := 25);
    }

    method GenerateMessage1(q: nat, hash: Smp.Hash, question: Option<seq<nat>>, k: Smp.Coins)
      returns (dst: Smp.Message1)
      requires q > 1
      modifies this`a2, this`a3
      ensures a2 == k.x2 && a3 == k.x3 && dst == Smp.MakeMessage1(q, hash, question, k)
    {
      a2 := k.x2;
      var g2a := Mul(q, 1, a2);
      a3 := k.x3;
      var point := Mul(q, 1, a3);
      var c2 := Smp.ToScalar(q, hash, 1, [Mul(q, 1, k.r2)]);
      var d2 := Sub(q, k.r2, Mul(q, a2, c2));
      var c3 := Smp.ToScalar(q, hash, 2, [Mul(q, 1, k.r3)]);
      var d3 := Sub(q, k.r3, Mul(q, a3, c3));
      dst := Smp.Message1(question, g2a, c2, d2, point, c3, d3);
    }

    /** otrng_smp_provide_secret, with the secret already hashed. Without a stored message 1
        the outcome is not defined, and nothing is said of it. */
    method ProvideSecret(q: nat, hash: Smp.Hash, y: nat, k: Smp.Coins) returns (defined: bool, reply: Option<Smp.Tlv>)
      requires q > 1
      modifies this
      ensures defined <==> Smp.MayAnswer(old(State()))
      ensures defined ==> (State(), reply) == Smp.Provide(q, hash, old(State()), y, k)
    {
      if awaits != Smp.E1 {
        return true, None;
      }
      if message1.None? {
        return false, None;
      }
      secret := y;
      var msg := ReplyWithMessage2(q, hash, k);
      defined, reply := true, Some(Smp.Msg2(Some(msg)));
    }

    /** otrng_reply_with_smp_message_2. */
    method ReplyWithMessage2(q: nat, hash: Smp.Hash, k: Smp.Coins) returns (msg2: Smp.Message2)
      requires q > 1 && message1.Some?
      modifies this
      ensures State() == old(State()).(b3 := k.x3, g2 := Mul(q, old(message1).value.g2a, k.x2),
                                       g3 := Mul(q, old(message1).value.g3a, k.x3), g3a := old(message1).value.g3a,
                                       pb := msg2.pb, qb := msg2.qb, awaits := Smp.E3, progress := 50)
      ensures msg2 == Smp.MakeMessage2(q, hash, secret, g2, g3, k)
    {
      msg2 := GenerateMessage2(q, hash, message1.value, k);
      awaits := Smp.E3;
      progress := 50;
    }

    method GenerateMessage2(q: nat, hash: Smp.Hash, msg1: Smp.Message1, k: Smp.Coins) returns (dst: Smp.Message2)
      requires q > 1
      modifies this`b3, this`g2, this`g3, this`g3a, this`pb, this`qb
      ensures b3 == k.x3 && g2 == Mul(q, msg1.g2a, k.x2) && g3 == Mul(q, msg1.g3a, k.x3) && g3a == msg1.g3a
      ensures dst == Smp.MakeMessage2(q, hash, secret, g2, g3, k) && pb == dst.pb && qb == dst.qb
    {
      b3 := k.x3;
      var c2 := Smp.ToScalar(q, hash, 3, [Mul(q, 1, k.r2)]);
      var d2 := Sub(q, k.r2, Mul(q, k.x2, c2));
      var c3 := Smp.ToScalar(q, hash, 4, [Mul(q, 1, k.r3)]);
      var d3 := Sub(q, k.r3, Mul(q, b3, c3));
      g2 := Mul(q, msg1.g2a, k.x2);
      g3 := Mul(q, msg1.g3a, b3);
      g3a := msg1.g3a;
      pb := Mul(q, g3, k.r4);
      var y := Mod(q, secret);
      qb := Mul(q, g2, y);
      qb := Add(q, Mul(q, 1, k.r4), qb);
      var point := Mul(q, g2, k.r6);
      point := Add(q, Mul(q, 1, k.r5), point);
      var cp := Smp.ToScalar(q, hash, 5, [Mul(q, g3, k.r5), point]);
      var d5 := Mul(q, k.r4, cp);
      d5 := Sub(q, k.r5, d5);
      var d6 := Mul(q, y, cp);
      d6 := Sub(q, k.r6, d6);
      dst := Smp.Message2(Mul(q, 1, k.x2), c2, d2, Mul(q, 1, b3), c3, d3, pb, qb, cp, d5, d6);
    }

    method GenerateMessage3(q: nat, hash: Smp.Hash, msg2: Smp.Message2, k: Smp.Coins) returns (dst: Smp.Message3)
      requires q > 1
      modifies this`g3b, this`paPb, this`qaQb
      ensures dst == Smp.MakeMessage3(q, hash, secret, a3, g2, g3, msg2, k)
      ensures g3b == msg2.g3b && paPb == Sub(q, dst.pa, msg2.pb) && qaQb == Sub(q, dst.qa, msg2.qb)
    {
      g3b := msg2.g3b;
      var pa := Mul(q, g3, k.r4);
      paPb := Sub(q, pa, msg2.pb);
      var x := Mod(q, secret);
      var qa := Mul(q, g2, x);
      qa := Add(q, Mul(q, 1, k.r4), qa);
      var point := Mul(q, g2, k.r6);
      point := Add(q, Mul(q, 1, k.r5), point);
      var cp := Smp.ToScalar(q, hash, 6, [Mul(q, g3, k.r5), point]);
      var d5 := Sub(q, k.r5, Mul(q, k.r4, cp));
      var d6 := Sub(q, k.r6, Mul(q, x, cp));
      qaQb := Sub(q, qa, msg2.qb);
      var ra := Mul(q, qaQb, a3);
      var cr := Smp.ToScalar(q, hash, 7, [Mul(q, 1, k.r7), Mul(q, qaQb, k.r7)]);
      var d7 := Sub(q, k.r7, Mul(q, a3, cr));
      dst := Smp.Message3(pa, qa, cp, d5, d6, ra, cr, d7);
    }

    method GenerateMessage4(q: nat, hash: Smp.Hash, msg3: Smp.Message3, k: Smp.Coins) returns (dst: Smp.Message4)
      requires q > 1
      ensures dst == Smp.MakeMessage4(q, hash, b3, qb, msg3, k)
    {
      var difference := Sub(q, msg3.qa, qb);
      var rb := Mul(q, difference, b3);
      difference := Mul(q, difference, k.r7);
      var cr := Smp.ToScalar(q, hash, 8, [Mul(q, 1, k.r7), difference]);
      var d7 := Mul(q, b3, cr);
      d7 := Sub(q, k.r7, d7);
      dst := Smp.Message4(rb, cr, d7);
    }

    /** otrng_process_smp_message1. */
    method ProcessMessage1(q: nat, hash: Smp.Hash, body: Option<Smp.Message1>) returns (event: Smp.Event)
      requires q > 1
      modifies this
      ensures Smp.Outcome(State(), event, None) == Smp.Receive1(q, hash, old(State()), body)
    {
      if awaits != Smp.E1 {
        progress := 0;
        return Smp.Aborted;
      }
      if body.None? {
        return Smp.Error;
      }
      if !Smp.Valid1(q, hash, body.value) {
        return Smp.Error;
      }
      message1 := body;
      progress := 25;
      event := Smp.AskForAnswer;
    }

    /** receive_smp_message_2: derives the shared generators before checking the proofs. */
    method ReceiveMessage2(q: nat, hash: Smp.Hash, body: Option<Smp.Message2>) returns (event: Smp.Event)
      requires q > 1
      modifies this
      ensures old(awaits) != Smp.E2 ==> event == Smp.Aborted && State() == old(State()).(progress := 0)
      ensures old(awaits) == Smp.E2 && body.None? ==> event == Smp.Error && State() == old(State())
      ensures old(awaits) == Smp.E2 && body.Some? ==>
                && State() == old(State()).(g2 := Mul(q, body.value.g2b, a2), g3 := Mul(q, body.value.g3b, a3))
                && event == if Smp.Valid2(q, hash, g2, g3, body.value) then Smp.NoEvent else Smp.Error
    {
      if awaits != Smp.E2 {
        progress := 0;
        return Smp.Aborted;
      }
      if body.None? {
        return Smp.Error;
      }
      g2 := Mul(q, body.value.g2b, a2);
      g3 := Mul(q, body.value.g3b, a3);
      if !Smp.Valid2(q, hash, g2, g3, body.value) {
        return Smp.Error;
      }
      event := Smp.NoEvent;
    }

    /** reply_with_smp_message_3. */
    method ReplyWithMessage3(q: nat, hash: Smp.Hash, msg2: Smp.Message2, k: Smp.Coins) returns (msg3: Smp.Message3)
      requires q > 1
      modifies this
      ensures msg3 == Smp.MakeMessage3(q, hash, secret, a3, g2, g3, msg2, k)
      ensures State() == old(State()).(g3b := msg2.g3b, paPb := Sub(q, msg3.pa, msg2.pb),
                                       qaQb := Sub(q, msg3.qa, msg2.qb), awaits := Smp.E4, progress := 50)
    {
      msg3 := GenerateMessage3(q, hash, msg2, k);
      awaits := Smp.E4;
      progress := 50;
    }

    /** otrng_process_smp_message2. */
    method ProcessMessage2(q: nat, hash: Smp.Hash, body: Option<Smp.Message2>, k: Smp.Coins)
      returns (event: Smp.Event, reply: Option<Smp.Tlv>)
      requires q > 1
      modifies this
      ensures Smp.Outcome(State(), event, reply) == Smp.Receive2(q, hash, old(State()), body, k)
    {
      event := ReceiveMessage2(q, hash, body);
      reply := None;
      if event == Smp.NoEvent {
        var msg3 := ReplyWithMessage3(q, hash, body.value, k);
        reply := Some(Smp.Msg3(Some(msg3)));
      }
    }

    /** receive_smp_message_3. */
    method ReceiveMessage3(q: nat, hash: Smp.Hash, body: Option<Smp.Message3>) returns (event: Smp.Event)
      requires q > 1
      modifies this`progress
      ensures old(awaits) != Smp.E3 ==> event == Smp.Aborted && progress == 0
      ensures old(awaits) == Smp.E3 && body.None? ==> event == Smp.Error && progress == old(progress)
      ensures old(awaits) == Smp.E3 && body.Some? ==>
                if Smp.Valid3(q, hash, g2, g3, g3a, qb, body.value) then event == Smp.NoEvent && progress == 75
                else event == Smp.Error && progress == old(progress)
    {
      if awaits != Smp.E3 {
        progress := 0;
        return Smp.Aborted;
      }
      if body.None? {
        return Smp.Error;
      }
      if !Smp.Valid3(q, hash, g2, g3, g3a, qb, body.value) {
        return Smp.Error;
      }
      progress := 75;
      event := Smp.NoEvent;
    }

    /** reply_with_smp_message_4, which also compares. */
    method ReplyWithMessage4(q: nat, hash: Smp.Hash, msg3: Smp.Message3, k: Smp.Coins)
      returns (event: Smp.Event, msg4: Smp.Message4)
      requires q > 1
      modifies this`awaits, this`progress
      ensures msg4 == Smp.MakeMessage4(q, hash, b3, qb, msg3, k)
      ensures awaits == Smp.E1 && progress == 100
      ensures event == if Sub(q, msg3.pa, pb) == Mul(q, msg3.ra, b3) then Smp.Success else Smp.Failure
    {
      msg4 := GenerateMessage4(q, hash, msg3, k);
      progress := 100;
      awaits := Smp.E1;
      var rab := Mul(q, msg3.ra, b3);
      event := if Sub(q, msg3.pa, pb) != rab then Smp.Failure else Smp.Success;
    }

    /** otrng_process_smp_message3. */
    method ProcessMessage3(q: nat, hash: Smp.Hash, body: Option<Smp.Message3>, k: Smp.Coins)
      returns (event: Smp.Event, reply: Option<Smp.Tlv>)
      requires q > 1
      modifies this
      ensures Smp.Outcome(State(), event, reply) == Smp.Receive3(q, hash, old(State()), body, k)
    {
      event := ReceiveMessage3(q, hash, body);
      reply := None;
      if event == Smp.NoEvent {
        var msg4;
        event, msg4 := ReplyWithMessage4(q, hash, body.value, k);
        reply := Some(Smp.Msg4(Some(msg4)));
      }
    }

    /** otrng_process_smp_message4. */
    method ProcessMessage4(q: nat, hash: Smp.Hash, body: Option<Smp.Message4>) returns (event: Smp.Event)
      requires q > 1
      modifies this
      ensures Smp.Outcome(State(), event, None) == Smp.Receive4(q, hash, old(State()), body)
    {
      if awaits != Smp.E4 {
        progress := 0;
        return Smp.Aborted;
      }
      if body.None? {
        return Smp.Error;
      }
      if !Smp.Valid4(q, hash, g3b, qaQb, body.value) {
        return Smp.Error;
      }
      progress := 100;
      awaits := Smp.E1;
      var rab := Mul(q, body.value.rb, a3);
      event := if paPb != rab then Smp.Failure else Smp.Success;
    }

    /** otrng_process_smp. */
    method Process(q: nat, hash: Smp.Hash, tlv: Smp.Tlv, k: Smp.Coins)
      returns (event: Smp.Event, reply: Option<Smp.Tlv>)
      requires q > 1
      modifies this
      ensures Smp.Outcome(State(), event, reply) == Smp.Process(q, hash, old(State()), tlv, k)
    {
      event, reply := Smp.NoEvent, None;
      match tlv {
        case Msg1(body) =>
          event := ProcessMessage1(q, hash, body);
          reply := Settle(event, None);
        case Msg2(body) =>
          event, reply := ProcessMessage2(q, hash, body, k);
          reply := Settle(event, reply);
        case Msg3(body) =>
          event, reply := ProcessMessage3(q, hash, body, k);
          reply := Settle(event, reply);
        case Msg4(body) =>
          event := ProcessMessage4(q, hash, body);
          reply := Settle(event, None);
        case AbortTlv =>
          awaits := Smp.E1;
          progress := 0;
          event := Smp.Aborted;
        case OtherTlv =>
      }
      if event == Smp.NoEvent {
        event := Smp.InProgress;
      }
    }

    /** The resets that follow the handling of each message. */
    method Settle(event: Smp.Event, reply: Option<Smp.Tlv>) returns (reply': Option<Smp.Tlv>)
      modifies this`awaits, this`progress
      ensures Smp.Outcome(State(), if event == Smp.NoEvent then Smp.InProgress else event, reply')
              == Smp.Settle(Smp.Outcome(old(State()), event, reply))
    {
      reply' := reply;
      if event == Smp.Aborted {
        awaits := Smp.E1;
        progress := 0;
        reply' := Some(Smp.AbortTlv);
      } else if event == Smp.Error || event == Smp.Failure {
        awaits := Smp.E1;
      }
    }
  }
}
