/** Two sides that both became responders: what holds for every run from there, and the way out. */
module DakeDeadlock {
  import opened Prelude
  import opened Keys
  import opened Dake
  import opened DakeRun

  /** No confirmation for a responder with this key: anybody's, of the wrong kind, or for another key. */
  predicate Useless(sigma: Sigma, key: KeyId) { Forgeable(sigma) || sigma.tag.authR || sigma.tag.rEcdh != key }

  predicate NoneFor(net: seq<Posted>, key: KeyId) {
    forall m | m in net :: m.msg.AuthI? ==> Useless(m.msg.sigma, key)
  }

  /** Both sides wait for an Auth-I, and none that was ever posted is for what they now wait with. */
  predicate Stuck(w: World) {
    && w.alice.state == w.bob.state == WaitingAuthI
    && NoneFor(w.net, w.alice.own.ecdh.pub) && NoneFor(w.net, w.bob.own.ecdh.pub)
  }

  /** Neither side starts over. Anything may be delivered and posted. */
  predicate NoStarts(events: seq<Event>) { forall e | e in events :: !e.Start? }

  /** What was signed up to now is useless for the next key generated. */
  lemma FreshKeyUnconfirmed(net: seq<Posted>, n: nat, c: Setting)
    requires forall m | m in net :: PostedInv(net, m, n, c)
    ensures NoneFor(net, Dake(2 * n))
  {
    forall m | m in net && m.msg.AuthI? && !Forgeable(m.msg.sigma)
      ensures Useless(m.msg.sigma, Dake(2 * n))
    {
      var h := GenuineOf(net, m.msg.sigma, n, c);
    }
  }

  /** Posting again what was signed for another key does not help either. */
  lemma ForgedUseless(net: seq<Posted>, msg: Message, n: nat, key: KeyId, c: Setting)
    requires NoneFor(net, key) && CanForge(net, msg) && msg.AuthI?
    requires forall m | m in net :: PostedInv(net, m, n, c)
    ensures Useless(msg.sigma, key)
  {
    if !Forgeable(msg.sigma) {
      var m :| m in net && SigmaOf(m.msg) == Some(msg.sigma);
      var h := GenuineOf(net, msg.sigma, n, c);
      assert net[h] in net;
    }
  }

  /** A waiting responder answers an offer anew or stays as it is, and sends no Auth-I. */
  lemma ResponderWaits(me: Peer, s: Side, msg: Message, n: nat, c: Setting)
    requires s.state == WaitingAuthI && SideInv(me, s, n, c)
    requires msg.AuthI? ==> Useless(msg.sigma, s.own.ecdh.pub)
    ensures var o := ReceiveMessage(me, s, msg, n, c);
            && o.Outcome? && o.side.state == WaitingAuthI && (o.reply.Some? ==> o.reply.value.AuthR?)
            && (o.side.own.ecdh.pub == Dake(2 * n) || o.side.own.ecdh.pub == s.own.ecdh.pub)
  {
  }

  /** One side moved and waits for an Auth-I, and no Auth-I was added to the network. */
  predicate Waited(w: World, p: Peer, w1: World) {
    && w1.Of(p).state == WaitingAuthI && w1.Of(OtherPeer(p)) == w.Of(OtherPeer(p))
    && forall m | m in w1.net && m.msg.AuthI? :: m in w.net
  }

  lemma DeliveryWaits(w: World, p: Peer, m: nat, c: Setting)
    requires Reachable(w, c) && Stuck(w) && Allowed(w, Deliver(p, m))
    ensures Waited(w, p, Step(w, Deliver(p, m), c)) && NoneFor(w.net, Step(w, Deliver(p, m), c).Of(p).own.ecdh.pub)
  {
    Delivered(w, p, m, c);
    assert w.net[m] in w.net;
    ResponderWaits(p, w.Of(p), w.net[m].msg, w.next, c);
    StepMoves(w, p, m, c);
    FreshKeyUnconfirmed(w.net, w.next, c);
  }

  lemma DeliveryKeepsStuck(w: World, p: Peer, m: nat, c: Setting)
    requires Reachable(w, c) && Stuck(w) && Allowed(w, Deliver(p, m))
    ensures Stuck(Step(w, Deliver(p, m), c))
  {
    DeliveryWaits(w, p, m, c);
  }

  lemma ForgeryKeepsStuck(w: World, from: Peer, msg: Message, c: Setting)
    requires Reachable(w, c) && Stuck(w) && CanForge(w.net, msg)
    ensures Stuck(Step(w, Forge(from, msg), c))
  {
    ReachableInv(w, c);
    if msg.AuthI? {
      ForgedUseless(w.net, msg, w.next, w.alice.own.ecdh.pub, c);
      ForgedUseless(w.net, msg, w.next, w.bob.own.ecdh.pub, c);
    }
  }

  /** Whatever is delivered and posted from then on, in any order and number, both sides go on waiting. */
  lemma {:induction false} DeadlockLasts(w: World, events: seq<Event>, c: Setting)
    requires Reachable(w, c) && Stuck(w) && NoStarts(events) && Legal(w, events, c)
    ensures Stuck(Run(w, events, c)) && Reachable(Run(w, events, c), c)
  {
    if events != [] {
      var before, e := events[..|events| - 1], events[|events| - 1];
      assert e in events;
      DeadlockLasts(w, before, c);
      var w1 := Run(w, before, c);
      StepReachable(w1, e, c);
      match e
      case Deliver(p, m) => DeliveryKeepsStuck(w1, p, m, c);
      case Forge(from, msg) => ForgeryKeepsStuck(w1, from, msg, c);
    }
  }

  lemma CrossedReachable(w: World, ma: nat, mb: nat, c: Setting)
    requires Reachable(w, c) && Offered(w, Alice, ma, c) && Offered(w, Bob, mb, c) && OwnKeysValid(c)
    ensures Reachable(Crossed(w, ma, mb, c), c)
  {
    StepMoves(w, Bob, ma, c);
    StepReachable(w, Deliver(Bob, ma), c);
    StepReachable(Step(w, Deliver(Bob, ma), c), Deliver(Alice, mb), c);
  }

  /** One of the two sides answers: no confirmation for its new key has been posted. */
  lemma AnswerUnconfirmed(w: World, p: Peer, m: nat, c: Setting)
    requires Reachable(w, c) && m < |w.net| && w.net[m].msg.Identity? && c.valid(w.net[m].msg.keys)
    requires w.Of(p).state == WaitingAuthR && c.value(w.Of(p).own.dh.pub) <= c.value(w.net[m].msg.keys.dh)
    ensures Waited(w, p, Step(w, Deliver(p, m), c)) && NoneFor(w.net, Step(w, Deliver(p, m), c).Of(p).own.ecdh.pub)
    ensures w.net <= Step(w, Deliver(p, m), c).net
  {
    Delivered(w, p, m, c);
    StepMoves(w, p, m, c);
    FreshKeyUnconfirmed(w.net, w.next, c);
  }

  lemma FirstAnswer(w: World, ma: nat, mb: nat, c: Setting) returns (w1: World)
    requires Reachable(w, c) && Offered(w, Alice, ma, c) && Offered(w, Bob, mb, c) && OwnKeysValid(c)
    requires c.value(w.bob.own.dh.pub) <= c.value(w.alice.own.dh.pub)
    ensures w1 == Step(w, Deliver(Bob, ma), c) && Reachable(w1, c) && Waited(w, Bob, w1)
    ensures NoneFor(w1.net, w1.bob.own.ecdh.pub) && mb < |w1.net| && w1.net[mb] == w.net[mb]
  {
    w1 := Step(w, Deliver(Bob, ma), c);
    AnswerUnconfirmed(w, Bob, ma, c);
    StepReachable(w, Deliver(Bob, ma), c);
  }

  lemma SecondAnswer(w: World, m: nat, c: Setting)
    requires Reachable(w, c) && w.bob.state == WaitingAuthI && NoneFor(w.net, w.bob.own.ecdh.pub)
    requires m < |w.net| && w.net[m].msg.Identity? && w.alice.state == WaitingAuthR && c.valid(w.net[m].msg.keys)
    requires c.value(w.alice.own.dh.pub) <= c.value(w.net[m].msg.keys.dh)
    ensures Stuck(Step(w, Deliver(Alice, m), c))
  {
    AnswerUnconfirmed(w, Alice, m, c);
  }

  lemma CrossedStuck(w: World, ma: nat, mb: nat, c: Setting)
    requires Reachable(w, c) && Offered(w, Alice, ma, c) && Offered(w, Bob, mb, c) && OwnKeysValid(c)
    requires c.value(w.alice.own.dh.pub) == c.value(w.bob.own.dh.pub)
    ensures Stuck(Crossed(w, ma, mb, c))
  {
    var w1 := FirstAnswer(w, ma, mb, c);
    SecondAnswer(w1, mb, c);
  }

  /** Crossed offers with equal DH keys: no run in which neither side starts over ever completes the
      exchange on either side, whatever happened before and whoever posts what. */
  lemma EqualKeysDeadlock(w: World, ma: nat, mb: nat, events: seq<Event>, c: Setting)
    requires Reachable(w, c) && Offered(w, Alice, ma, c) && Offered(w, Bob, mb, c) && OwnKeysValid(c)
    requires c.value(w.alice.own.dh.pub) == c.value(w.bob.own.dh.pub)
    requires NoStarts(events) && Legal(Crossed(w, ma, mb, c), events, c)
    ensures Stuck(Run(Crossed(w, ma, mb, c), events, c))
  {
    CrossedStuck(w, ma, mb, c);
    CrossedReachable(w, ma, mb, c);
    DeadlockLasts(Crossed(w, ma, mb, c), events, c);
  }

  /** With different keys two more deliveries complete it. */
  lemma DifferentKeysComplete(w: World, ma: nat, mb: nat, c: Setting)
    requires Reachable(w, c) && Offered(w, Alice, ma, c) && Offered(w, Bob, mb, c) && OwnKeysValid(c)
    requires c.value(w.alice.own.dh.pub) != c.value(w.bob.own.dh.pub)
    ensures var p := if c.value(w.alice.own.dh.pub) < c.value(w.bob.own.dh.pub) then Alice else Bob;
            var done := Concluded(Crossed(w, ma, mb, c), p, |w.net|, c);
            Agree(done.Of(OtherPeer(p)), done.Of(p))
  {
    var p := if c.value(w.alice.own.dh.pub) < c.value(w.bob.own.dh.pub) then Alice else Bob;
    CrossedReachable(w, ma, mb, c);
    CrossedIdentities(w, ma, mb, c);
    AnsweredCompletes(Crossed(w, ma, mb, c), p, |w.net|, c);
  }

  /** A side starts over, and its new offer reaches the other side. */
  function Restarted(w: World, p: Peer, c: Setting): World {
    Step(Step(w, Start(p), c), Deliver(OtherPeer(p), |w.net|), c)
  }

  lemma RestartOffers(w: World, p: Peer, c: Setting)
    requires Reachable(w, c) && Stuck(w) && OwnKeysValid(c)
    ensures Reachable(Step(w, Start(p), c), c) && Offered(Step(w, Start(p), c), p, |w.net|, c)
    ensures Step(w, Start(p), c).Of(OtherPeer(p)).state == WaitingAuthI && |Step(w, Start(p), c).net| == |w.net| + 1
  {
    StepReachable(w, Start(p), c);
    assert c.valid(PublicsOf(FreshPairs(w.next)));
  }

  lemma RestartAnswered(w: World, p: Peer, c: Setting)
    requires Reachable(w, c) && Stuck(w) && OwnKeysValid(c)
    ensures Reachable(Restarted(w, p, c), c) && Answered(Restarted(w, p, c), OtherPeer(p), |w.net| + 1, c)
  {
    RestartOffers(w, p, c);
    StepReachable(Step(w, Start(p), c), Deliver(OtherPeer(p), |w.net|), c);
    OfferAnswered(Step(w, Start(p), c), OtherPeer(p), |w.net|, c);
  }

  /** Only a new offer ends the deadlock: once one side starts over, three deliveries complete
      the exchange. */
  lemma RestartEndsDeadlock(w: World, p: Peer, c: Setting)
    requires Reachable(w, c) && Stuck(w) && OwnKeysValid(c)
    ensures var done := Concluded(Restarted(w, p, c), OtherPeer(p), |w.net| + 1, c);
            Agree(done.Of(p), done.Of(OtherPeer(p)))
  {
    RestartAnswered(w, p, c);
    AnsweredCompletes(Restarted(w, p, c), OtherPeer(p), |w.net| + 1, c);
  }
}
