/**
 Runs of the interactive key exchange over a network that may lose, reorder, delay and repeat
 messages, with restarts at any time, and to which anyone may post: any offer, and any answer
 or confirmation whose signature was seen before or is over a ring with a key of theirs.
 */
module DakeRun {
  import opened Prelude
  import opened Keys
  import opened Dake
  import KM = KeyManager
  import RatchetSession

  /** A message on the network and whose it claims to be. Of a genuine one, the state its sender was in
      right after sending it. */
  datatype Posted = Posted(from: Peer, msg: Message, sender: Side, genuine: bool)

  datatype World = World(alice: Side, bob: Side, net: seq<Posted>, next: nat)
  {
    function Of(p: Peer): Side { if p == Alice then alice else bob }
    function With(p: Peer, s: Side): World { if p == Alice then this.(alice := s) else this.(bob := s) }
  }

  datatype Event =
    | Start(p: Peer)                  // send an identity message, possibly again
    | Deliver(p: Peer, m: nat)        // hand message m of the network to p
    | Forge(from: Peer, msg: Message) // somebody else posts a message

  function Apply(w: World, p: Peer, o: Outcome): World {
    match o
    case Undefined => w
    case Outcome(side, reply) =>
      var w1 := w.With(p, side).(next := w.next + 1);
      match reply
      case None => w1
      case Some(msg) => w1.(net := w1.net + [Posted(p, msg, side, true)])
  }

  function Step(w: World, e: Event, c: Setting): World {
    match e
    case Start(p) => Apply(w, p, BuildIdentityMessage(w.Of(p), w.next))
    case Deliver(p, m) =>
      if m < |w.net| then Apply(w, p, ReceiveMessage(p, w.Of(p), w.net[m].msg, w.next, c)) else w
    case Forge(from, msg) => w.(net := w.net + [Posted(from, msg, w.Of(from), false)])
  }

  // ------------------------------------------------------- what others can post

  function SigmaOf(msg: Message): Option<Sigma> {
    match msg
    case Identity(_) => None
    case AuthR(_, sigma) => Some(sigma)
    case AuthI(sigma) => Some(sigma)
  }

  predicate OutsiderKey(k: RingKey) { k.Ephemeral? && k.key.Outsider? }

  /** One of the three keys of the ring is somebody else's. */
  predicate Forgeable(sigma: Sigma) { OutsiderKey(sigma.a1) || OutsiderKey(sigma.a2) || OutsiderKey(sigma.a3) }

  predicate Seen(net: seq<Posted>, sigma: Sigma) { exists m | m in net :: SigmaOf(m.msg) == Some(sigma) }

  /** A key there can be during an exchange: those of ratchets are generated later, and derived ones take
      the secret of the exchange. */
  predicate Named(k: KeyId) { k.Dake? || k.Outsider? }

  predicate FirstKeysNamed(msg: Message) {
    match msg
    case Identity(keys) => Named(keys.ecdhFirst)
    case AuthR(keys, _) => Named(keys.ecdhFirst)
    case AuthI(_) => true
  }

  predicate CanForge(net: seq<Posted>, msg: Message) {
    && FirstKeysNamed(msg)
    && (SigmaOf(msg).Some? ==> Forgeable(SigmaOf(msg).value) || Seen(net, SigmaOf(msg).value))
  }

  /** Messages reach the other side, others post what they can, and the exchange is not run again on a side
      that has completed it as 't': that side's ratchet has already moved. */
  predicate Allowed(w: World, e: Event) {
    match e
    case Start(p) => w.Of(p).state != Encrypted
    case Deliver(p, m) => m < |w.net| && w.net[m].from == OtherPeer(p) && w.Of(p).state != Encrypted
    case Forge(_, msg) => CanForge(w.net, msg)
  }

  predicate Fresh(w: World) {
    w.alice.state == w.bob.state == StateStart && w.net == []
  }

  ghost predicate Reachable(w: World, c: Setting)
  {
    exists w0: World, events: seq<Event> :: Fresh(w0) && Legal(w0, events, c) && w == Run(w0, events, c)
  }

  function Run(w: World, events: seq<Event>, c: Setting): World {
    if events == [] then w else Step(Run(w, events[..|events| - 1], c), events[|events| - 1], c)
  }

  predicate Legal(w: World, events: seq<Event>, c: Setting) {
    events != [] ==>
      Legal(w, events[..|events| - 1], c) && Allowed(Run(w, events[..|events| - 1], c), events[|events| - 1])
  }

  // ------------------------------------------------------------ invariant

  /** The shared secret two sets of public keys stand for. */
  function SecretOf(y: KeyId, b: KeyId, x: KeyId, a: KeyId): Term {
    DakeSecret(EcSecret(multiset{y, x}), DhSecret(multiset{b, a}))
  }

  function TagSecret(t: Tag): Term { SecretOf(t.iEcdh, t.iDh, t.rEcdh, t.rDh) }

  /** What the initiator ends with, given the transcript. */
  predicate UCompleted(s: Side, t: Tag, c: Setting) {
    var ss := TagSecret(t);
    && s.state == WaitingDakeData && s.ssid == Kdf1(USAGE_SSID, ss) && s.rootKey == Kdf1(USAGE_FIRST_ROOT_KEY, ss)
    && s.ssidHalfFirst == !(c.value(t.iDh) > c.value(t.rDh)) && s.sharedSecret == Zeros
    && s.own.ecdh == EcPair(Live(FirstEcdh(ss)), FirstEcdh(ss))
    && s.own.dh == DhPair(Some(FirstDh(ss)), FirstDh(ss))
    && Named(s.their.ecdh)
  }

  /** What the responder ends with, given the transcript. */
  predicate TCompleted(s: Side, t: Tag, c: Setting) {
    var ss := TagSecret(t);
    && s.state == Encrypted && s.ssid == Kdf1(USAGE_SSID, ss) && s.rootKey == Kdf1(USAGE_FIRST_ROOT_KEY, ss)
    && s.ssidHalfFirst == !(c.value(t.rDh) > c.value(t.iDh)) && s.sharedSecret == Zeros
    && s.their.ecdh == FirstEcdh(ss) && s.their.dh == FirstDh(ss)
  }

  /** A responder that has computed the secret of the transcript and waits for Auth-I. */
  predicate TWaiting(s: Side, t: Tag, c: Setting) {
    var ss := TagSecret(t);
    && s.state == WaitingAuthI && s.sharedSecret == ss && s.ssid == Kdf1(USAGE_SSID, ss)
    && s.ssidHalfFirst == !(c.value(t.rDh) > c.value(t.iDh))
    && s.their.ecdh == t.iEcdh && s.their.dh == t.iDh && s.own.ecdh.pub == t.rEcdh && s.own.dh.pub == t.rDh
  }

  /** The key was generated by one of the two sides before n. */
  predicate Issued(k: KeyId, n: nat) { k.Dake? && k.n < 2 * n }

  ghost predicate SideInv(me: Peer, s: Side, n: nat, c: Setting) {
    && (s.state == WaitingAuthR || s.state == WaitingAuthI ==> Issued(s.own.ecdh.pub, n))
    && (s.state == WaitingAuthR ==>
          s.own.ecdh.priv == Live(s.own.ecdh.pub) && s.own.dh.priv == Some(s.own.dh.pub))
    && (s.state == WaitingAuthI ==> TWaiting(s, TagAsResponder(me, s, true, c.phi), c))
  }

  /** What a genuine message says of its sender. */
  ghost predicate GenuineInv(m: Posted, n: nat, c: Setting) {
    match m.msg
    case Identity(_) => true
    case AuthR(keys, sigma) =>
      && sigma.tag == TagAsResponder(m.from, m.sender, true, c.phi)
      && sigma == AuthRSigma(m.from, sigma.tag.iEcdh, sigma.tag)
      && keys.ecdh == sigma.tag.rEcdh && keys.dh == sigma.tag.rDh
      && Issued(sigma.tag.rEcdh, n) && TWaiting(m.sender, sigma.tag, c)
    case AuthI(sigma) =>
      && !sigma.tag.authR && sigma == AuthISigma(m.from, sigma.tag.rEcdh, sigma.tag)
      && Issued(sigma.tag.rEcdh, n) && UCompleted(m.sender, sigma.tag, c)
  }

  /** The signature is forgeable or on a genuine message. */
  ghost predicate Traced(net: seq<Posted>, sigma: Sigma) {
    Forgeable(sigma) || exists h | h in net :: h.genuine && SigmaOf(h.msg) == Some(sigma)
  }

  ghost predicate PostedInv(net: seq<Posted>, m: Posted, n: nat, c: Setting) {
    && FirstKeysNamed(m.msg)
    && (SigmaOf(m.msg).Some? ==> Traced(net, SigmaOf(m.msg).value))
    && (m.genuine ==> GenuineInv(m, n, c))
  }

  ghost predicate Inv(w: World, c: Setting) {
    && SideInv(Alice, w.alice, w.next, c) && SideInv(Bob, w.bob, w.next, c)
    && forall m | m in w.net :: PostedInv(w.net, m, w.next, c)
  }

  lemma SecretEitherWay(y: KeyId, b: KeyId, x: KeyId, a: KeyId)
    ensures DakeSecret(Ecdh(Live(y), x), Dh(b, a)) == SecretOf(y, b, x, a)
    ensures DakeSecret(Ecdh(Live(x), y), Dh(a, b)) == SecretOf(y, b, x, a)
  {
    EcdhCommutes(x, y);
    DhCommutes(a, b);
  }

  /** What a handled message leaves: a defined outcome, a valid side, and a genuine reply. */
  ghost predicate Handled(me: Peer, o: Outcome, n: nat, c: Setting) {
    && o.Outcome? && SideInv(me, o.side, n + 1, c)
    && (o.reply.Some? ==> FirstKeysNamed(o.reply.value) && GenuineInv(Posted(me, o.reply.value, o.side, true), n + 1, c))
  }

  lemma AnswerIdentityInv(me: Peer, s: Side, keys: Publics, n: nat, c: Setting)
    ensures Handled(me, AnswerIdentity(me, s, keys, n, c), n, c) && AnswerIdentity(me, s, keys, n, c).reply.Some?
  {
    var own := FreshPairs(n);
    SecretEitherWay(keys.ecdh, keys.dh, own.ecdh.pub, own.dh.pub);
  }

  lemma ReceiveIdentityInv(me: Peer, s: Side, keys: Publics, n: nat, c: Setting)
    requires SideInv(me, s, n, c)
    ensures Handled(me, ReceiveIdentity(me, s, keys, n, c), n, c)
  {
    AnswerIdentityInv(me, s, keys, n, c);
  }

  /** The genuine message behind a signature that no outsider can make. */
  lemma GenuineOf(net: seq<Posted>, sigma: Sigma, n: nat, c: Setting) returns (h: nat)
    requires Traced(net, sigma) && !Forgeable(sigma)
    requires forall m | m in net :: PostedInv(net, m, n, c)
    ensures h < |net| && net[h].genuine && SigmaOf(net[h].msg) == Some(sigma) && GenuineInv(net[h], n, c)
    ensures net[h].msg.AuthR? <==> sigma.tag.authR
  {
    var m :| m in net && m.genuine && SigmaOf(m.msg) == Some(sigma);
    h :| 0 <= h < |net| && net[h] == m;
    assert net[h] in net;
  }

  lemma ReceiveAuthRInv(me: Peer, s: Side, keys: Publics, sigma: Sigma, n: nat, c: Setting, h: Posted)
    requires SideInv(me, s, n, c) && Named(keys.ecdhFirst) && s.state == WaitingAuthR
    requires sigma == AuthRSigma(OtherPeer(me), s.own.ecdh.pub, TagAsInitiator(me, s, keys.ecdh, keys.dh, true, c.phi))
    requires h.genuine && h.msg.AuthR? && h.msg.sigma == sigma && GenuineInv(h, n, c)
    ensures Handled(me, ReceiveAuthR(me, s, keys, sigma, c), n, c)
  {
    SecretEitherWay(s.own.ecdh.pub, s.own.dh.pub, keys.ecdh, keys.dh);
  }

  lemma ReceiveAuthRHandled(me: Peer, s: Side, net: seq<Posted>, m: Posted, n: nat, c: Setting)
    requires SideInv(me, s, n, c) && m in net && m.msg.AuthR? && forall x | x in net :: PostedInv(net, x, n, c)
    ensures Handled(me, ReceiveAuthR(me, s, m.msg.keys, m.msg.sigma, c), n, c)
  {
    var keys, sigma := m.msg.keys, m.msg.sigma;
    if s.state == WaitingAuthR
       && sigma == AuthRSigma(OtherPeer(me), s.own.ecdh.pub, TagAsInitiator(me, s, keys.ecdh, keys.dh, true, c.phi)) {
      var h := GenuineOf(net, sigma, n, c);
      ReceiveAuthRInv(me, s, keys, sigma, n, c, net[h]);
    }
  }

  lemma ReceiveAuthIInv(me: Peer, s: Side, sigma: Sigma, n: nat, c: Setting)
    requires SideInv(me, s, n, c)
    ensures Handled(me, ReceiveAuthI(me, s, sigma, c), n, c) && ReceiveAuthI(me, s, sigma, c).reply.None?
  {
  }

  /** Every message, genuine or not, is handled. In particular no exchange is made without its private half. */
  lemma ReceiveMessageInv(me: Peer, s: Side, net: seq<Posted>, m: Posted, n: nat, c: Setting)
    requires SideInv(me, s, n, c) && m in net && forall x | x in net :: PostedInv(net, x, n, c)
    ensures Handled(me, ReceiveMessage(me, s, m.msg, n, c), n, c)
  {
    match m.msg
    case Identity(keys) => ReceiveIdentityInv(me, s, keys, n, c);
    case AuthR(keys, sigma) => ReceiveAuthRHandled(me, s, net, m, n, c);
    case AuthI(sigma) => ReceiveAuthIInv(me, s, sigma, n, c);
  }

  /** A longer network, later, still bears out what was posted. */
  lemma PostedLater(net: seq<Posted>, m: Posted, n: nat, more: Posted, n': nat, c: Setting)
    requires PostedInv(net, m, n, c) && n <= n'
    ensures PostedInv(net + [more], m, n', c) && PostedInv(net, m, n', c)
  {
    if SigmaOf(m.msg).Some? && !Forgeable(SigmaOf(m.msg).value) {
      var h :| h in net && h.genuine && SigmaOf(h.msg) == SigmaOf(m.msg);
      assert h in net + [more];
    }
  }

  lemma NetGrows(net: seq<Posted>, n: nat, more: Posted, n': nat, c: Setting)
    requires (forall m | m in net :: PostedInv(net, m, n, c)) && n <= n' && PostedInv(net + [more], more, n', c)
    ensures forall m | m in net + [more] :: PostedInv(net + [more], m, n', c)
  {
    forall m | m in net + [more]
      ensures PostedInv(net + [more], m, n', c)
    {
      if m in net {
        PostedLater(net, m, n, more, n', c);
      }
    }
  }

  lemma NetStays(net: seq<Posted>, n: nat, n': nat, c: Setting)
    requires (forall m | m in net :: PostedInv(net, m, n, c)) && n <= n'
    ensures forall m | m in net :: PostedInv(net, m, n', c)
  {
  }

  lemma OwnReplyPosted(net: seq<Posted>, m: Posted, n: nat, c: Setting)
    requires m.genuine && FirstKeysNamed(m.msg) && GenuineInv(m, n, c)
    ensures PostedInv(net + [m], m, n, c)
  {
    assert m in net + [m];
  }

  lemma ApplyKeepsInv(w: World, p: Peer, o: Outcome, c: Setting)
    requires Inv(w, c) && Handled(p, o, w.next, c)
    ensures Inv(Apply(w, p, o), c)
  {
    NetStays(w.net, w.next, w.next + 1, c);
    if o.reply.Some? {
      var m := Posted(p, o.reply.value, o.side, true);
      OwnReplyPosted(w.net, m, w.next + 1, c);
      NetGrows(w.net, w.next, m, w.next + 1, c);
    }
  }

  lemma ForgeKeepsInv(w: World, from: Peer, msg: Message, c: Setting)
    requires Inv(w, c) && CanForge(w.net, msg)
    ensures Inv(Step(w, Forge(from, msg), c), c)
  {
    var more := Posted(from, msg, w.Of(from), false);
    if SigmaOf(msg).Some? && !Forgeable(SigmaOf(msg).value) {
      var m :| m in w.net && SigmaOf(m.msg) == SigmaOf(msg);
      var h :| h in w.net && h.genuine && SigmaOf(h.msg) == SigmaOf(msg);
      assert h in w.net + [more];
    }
    NetGrows(w.net, w.next, more, w.next, c);
  }

  lemma StepKeepsInv(w: World, e: Event, c: Setting)
    requires Inv(w, c) && Allowed(w, e)
    ensures Inv(Step(w, e, c), c)
  {
    match e
    case Start(p) => ApplyKeepsInv(w, p, BuildIdentityMessage(w.Of(p), w.next), c);
    case Deliver(p, m) =>
      assert w.net[m] in w.net && SideInv(p, w.Of(p), w.next, c);
      ReceiveMessageInv(p, w.Of(p), w.net, w.net[m], w.next, c);
      ApplyKeepsInv(w, p, ReceiveMessage(p, w.Of(p), w.net[m].msg, w.next, c), c);
    case Forge(from, msg) => ForgeKeepsInv(w, from, msg, c);
  }

  lemma {:induction false} RunKeepsInv(w: World, events: seq<Event>, c: Setting)
    requires Fresh(w) && Legal(w, events, c)
    ensures Inv(Run(w, events, c), c)
  {
    if events != [] {
      RunKeepsInv(w, events[..|events| - 1], c);
      StepKeepsInv(Run(w, events[..|events| - 1], c), events[|events| - 1], c);
    }
  }

  lemma ReachableInv(w: World, c: Setting)
    requires Reachable(w, c)
    ensures Inv(w, c)
  {
    var w0: World, events: seq<Event> :| Fresh(w0) && Legal(w0, events, c) && w == Run(w0, events, c);
    RunKeepsInv(w0, events, c);
  }

  lemma StepReachable(w: World, e: Event, c: Setting)
    requires Reachable(w, c) && Allowed(w, e)
    ensures Reachable(Step(w, e, c), c)
  {
    var w0: World, events: seq<Event> :| Fresh(w0) && Legal(w0, events, c) && w == Run(w0, events, c);
    assert (events + [e])[..|events|] == events;
    assert Legal(w0, events + [e], c) && Step(w, e, c) == Run(w0, events + [e], c);
  }

  // ------------------------------------------------------------ agreement

  /** u completed as the initiator and t as the responder of the same exchange. */
  predicate Agree(u: Side, t: Side) {
    && u.state == WaitingDakeData && t.state == Encrypted
    && u.ssid == t.ssid && u.rootKey == t.rootKey
    && t.their.ecdh == u.own.ecdh.pub && t.their.dh == u.own.dh.pub
    && u.own.ecdh.priv == Live(u.own.ecdh.pub) && u.own.dh.priv == Some(u.own.dh.pub)
  }

  lemma StepMoves(w: World, p: Peer, m: nat, c: Setting)
    requires m < |w.net| && ReceiveMessage(p, w.Of(p), w.net[m].msg, w.next, c).Outcome?
    ensures var o := ReceiveMessage(p, w.Of(p), w.net[m].msg, w.next, c);
            var w' := Step(w, Deliver(p, m), c);
            && w'.Of(p) == o.side && w'.Of(OtherPeer(p)) == w.Of(OtherPeer(p)) && w'.next == w.next + 1
            && w'.net == w.net + (if o.reply.None? then [] else [Posted(p, o.reply.value, o.side, true)])
  {
  }

  lemma Delivered(w: World, p: Peer, m: nat, c: Setting)
    requires Reachable(w, c) && m < |w.net|
    ensures Handled(p, ReceiveMessage(p, w.Of(p), w.net[m].msg, w.next, c), w.next, c)
    ensures SideInv(p, w.Of(p), w.next, c) && PostedInv(w.net, w.net[m], w.next, c)
    ensures forall x | x in w.net :: PostedInv(w.net, x, w.next, c)
  {
    ReachableInv(w, c);
    assert w.net[m] in w.net && SideInv(p, w.Of(p), w.next, c);
    ReceiveMessageInv(p, w.Of(p), w.net, w.net[m], w.next, c);
  }

  /** Only Auth-I completes a side as 't'. */
  lemma OnlyAuthIEncrypts(me: Peer, s: Side, msg: Message, n: nat, c: Setting)
    requires s.state != Encrypted && ReceiveMessage(me, s, msg, n, c).Outcome?
    requires ReceiveMessage(me, s, msg, n, c).side.state == Encrypted
    ensures msg.AuthI? && s.state == WaitingAuthI
    ensures msg.sigma == AuthISigma(OtherPeer(me), s.own.ecdh.pub, TagAsResponder(me, s, false, c.phi))
  {
  }

  lemma AuthIAgreement(me: Peer, s: Side, h: Posted, n: nat, c: Setting)
    requires SideInv(me, s, n, c) && GenuineInv(h, n, c) && s.state == WaitingAuthI && h.msg.AuthI?
    requires h.msg.sigma == AuthISigma(OtherPeer(me), s.own.ecdh.pub, TagAsResponder(me, s, false, c.phi))
    ensures h.from == OtherPeer(me)
    ensures var t := ReceiveAuthI(me, s, h.msg.sigma, c).side;
            && Agree(h.sender, t) && TCompleted(t, h.msg.sigma.tag, c)
            && (h.sender.ssidHalfFirst != t.ssidHalfFirst <==> c.value(s.own.dh.pub) != c.value(s.their.dh))
  {
  }

  /** Only Auth-R completes a side as 'u'. */
  lemma OnlyAuthRCompletes(me: Peer, s: Side, msg: Message, n: nat, c: Setting)
    requires s.state == WaitingAuthR && ReceiveMessage(me, s, msg, n, c).Outcome?
    requires ReceiveMessage(me, s, msg, n, c).side.state == WaitingDakeData
    ensures msg.AuthR?
    ensures msg.sigma == AuthRSigma(OtherPeer(me), s.own.ecdh.pub,
                                    TagAsInitiator(me, s, msg.keys.ecdh, msg.keys.dh, true, c.phi))
  {
  }

  lemma AuthRAgreement(me: Peer, s: Side, keys: Publics, h: Posted, n: nat, c: Setting)
    requires SideInv(me, s, n, c) && GenuineInv(h, n, c) && s.state == WaitingAuthR && h.msg.AuthR? && c.valid(keys)
    requires h.msg.sigma == AuthRSigma(OtherPeer(me), s.own.ecdh.pub,
                                       TagAsInitiator(me, s, keys.ecdh, keys.dh, true, c.phi))
    ensures h.from == OtherPeer(me)
    ensures var u := ReceiveAuthR(me, s, keys, h.msg.sigma, c).side;
            && h.sender.state == WaitingAuthI && u.ssid == h.sender.ssid
            && u.rootKey == Kdf1(USAGE_FIRST_ROOT_KEY, h.sender.sharedSecret)
            && (u.ssidHalfFirst != h.sender.ssidHalfFirst <==> c.value(s.own.dh.pub) != c.value(keys.dh))
  {
    SecretEitherWay(s.own.ecdh.pub, s.own.dh.pub, keys.ecdh, keys.dh);
  }

  /** Agreement of the responder: whenever a side completes as 't', whatever the network did and
      whoever posted to it, the other side had sent the accepted signature, when it completed
      as 'u' of the same exchange with the same session id and root key; 't' has the public
      halves of its keys, and the two sides show complementary halves of the session id exactly
      when their DH keys differ. What 't' holds is determined by the transcript that was signed. */
  lemma TAgreement(w: World, p: Peer, m: nat, c: Setting) returns (h: nat)
    requires Reachable(w, c) && Allowed(w, Deliver(p, m))
    requires Step(w, Deliver(p, m), c).Of(p).state == Encrypted
    ensures w.net[m].msg.AuthI?
    ensures h < |w.net| && w.net[h].genuine && w.net[h].from == OtherPeer(p) && w.net[h].msg == w.net[m].msg
    ensures var t, u := Step(w, Deliver(p, m), c).Of(p), w.net[h].sender;
            && Agree(u, t) && TCompleted(t, w.net[m].msg.sigma.tag, c)
            && UCompleted(u, w.net[m].msg.sigma.tag, c)
            && (u.ssidHalfFirst != t.ssidHalfFirst
                <==> c.value(w.Of(p).own.dh.pub) != c.value(w.Of(p).their.dh))
  {
    Delivered(w, p, m, c);
    StepMoves(w, p, m, c);
    OnlyAuthIEncrypts(p, w.Of(p), w.net[m].msg, w.next, c);
    h := GenuineOf(w.net, w.net[m].msg.sigma, w.next, c);
    AuthIAgreement(p, w.Of(p), w.net[h], w.next, c);
  }

  /** Agreement of the initiator: whenever a side completes as 'u', the other side had sent the accepted
      signature, and was waiting with the same shared secret and session id when it did. */
  lemma UAgreement(w: World, p: Peer, m: nat, c: Setting) returns (h: nat)
    requires Reachable(w, c) && Allowed(w, Deliver(p, m))
    requires w.Of(p).state == WaitingAuthR && Step(w, Deliver(p, m), c).Of(p).state == WaitingDakeData
    ensures w.net[m].msg.AuthR?
    ensures h < |w.net| && w.net[h].genuine && w.net[h].from == OtherPeer(p)
    ensures w.net[h].msg.AuthR? && w.net[h].msg.sigma == w.net[m].msg.sigma
    ensures var u, t := Step(w, Deliver(p, m), c).Of(p), w.net[h].sender;
            && t.state == WaitingAuthI && u.ssid == t.ssid
            && u.rootKey == Kdf1(USAGE_FIRST_ROOT_KEY, t.sharedSecret)
            && (u.ssidHalfFirst != t.ssidHalfFirst
                <==> c.value(w.Of(p).own.dh.pub) != c.value(w.net[m].msg.keys.dh))
  {
    Delivered(w, p, m, c);
    StepMoves(w, p, m, c);
    OnlyAuthRCompletes(p, w.Of(p), w.net[m].msg, w.next, c);
    h := GenuineOf(w.net, w.net[m].msg.sigma, w.next, c);
    AuthRAgreement(p, w.Of(p), w.net[m].msg.keys, w.net[h], w.next, c);
  }

  // ------------------------------------------------------------ completion

  /** Message m of the network is the offer p is waiting to have answered, with keys that pass the checks. */
  predicate Offered(w: World, p: Peer, m: nat, c: Setting) {
    m < |w.net| && w.net[m].from == p && w.Of(p).state == WaitingAuthR
    && w.net[m].msg == Identity(PublicsOf(w.Of(p).own)) && c.valid(PublicsOf(w.Of(p).own))
  }

  /** p has answered the offer the other side is still waiting on, with message m. */
  predicate Answered(w: World, p: Peer, m: nat, c: Setting) {
    && w.Of(p).state == WaitingAuthI && w.Of(OtherPeer(p)).state == WaitingAuthR
    && w.Of(p).their == PublicsOf(w.Of(OtherPeer(p)).own)
    && m < |w.net| && w.net[m].from == p && w.net[m].msg.AuthR? && w.net[m].sender == w.Of(p) && w.net[m].genuine
    && w.net[m].msg.keys == PublicsOf(w.Of(p).own) && c.valid(PublicsOf(w.Of(p).own))
  }

  /** The keys the two sides generate pass the checks. */
  ghost predicate OwnKeysValid(c: Setting) { forall n: nat :: c.valid(PublicsOf(FreshPairs(n))) }

  lemma OfferAnswered(w: World, p: Peer, m: nat, c: Setting)
    requires Offered(w, OtherPeer(p), m, c) && OwnKeysValid(c)
    requires w.Of(p).state == WaitingAuthR ==> !(c.value(w.Of(p).own.dh.pub) > c.value(w.Of(OtherPeer(p)).own.dh.pub))
    ensures Answered(Step(w, Deliver(p, m), c), p, |w.net|, c)
  {
    assert c.valid(PublicsOf(FreshPairs(w.next)));
  }

  /** The side with the higher DH key drops the other side's offer. */
  lemma OfferIgnored(w: World, q: Peer, m: nat, keys: Publics, c: Setting)
    requires m < |w.net| && w.net[m].msg == Identity(keys) && w.Of(q).state == WaitingAuthR
    requires c.value(w.Of(q).own.dh.pub) > c.value(keys.dh)
    ensures Step(w, Deliver(q, m), c) == w.(next := w.next + 1)
  {
  }

  /** Both offers are delivered. */
  function Crossed(w: World, ma: nat, mb: nat, c: Setting): World {
    Step(Step(w, Deliver(Bob, ma), c), Deliver(Alice, mb), c)
  }

  /** Crossed identity messages: when both sides have sent one and both arrive, a side becomes
      the responder exactly when its DH key is not the higher one. So exactly one does when the
      keys differ, and with equal keys both wait for a message that is never sent. */
  lemma CrossedIdentities(w: World, ma: nat, mb: nat, c: Setting)
    requires Offered(w, Alice, ma, c) && Offered(w, Bob, mb, c) && OwnKeysValid(c)
    ensures var w' := Crossed(w, ma, mb, c);
            var va, vb := c.value(w.alice.own.dh.pub), c.value(w.bob.own.dh.pub);
            && (w'.alice.state == WaitingAuthI <==> va <= vb)
            && (w'.bob.state == WaitingAuthI <==> vb <= va)
            && (va > vb ==> Answered(w', Bob, |w.net|, c))
            && (va < vb ==> Answered(w', Alice, |w.net|, c))
            && (va == vb ==> w'.alice.state == w'.bob.state == WaitingAuthI)
  {
    var w1 := Step(w, Deliver(Bob, ma), c);
    StepMoves(w, Bob, ma, c);
    StepMoves(w1, Alice, mb, c);
    if c.value(w.alice.own.dh.pub) > c.value(w.bob.own.dh.pub) {
      OfferAnswered(w, Bob, ma, c);
    } else if c.value(w.alice.own.dh.pub) < c.value(w.bob.own.dh.pub) {
      OfferAnswered(w1, Alice, mb, c);
    }
  }

  lemma AnswerAccepted(me: Peer, s: Side, m: Posted, n: nat, c: Setting)
    requires SideInv(me, s, n, c) && m.from == OtherPeer(me) && s.state == WaitingAuthR && m.msg.AuthR?
    requires m.sender.their == PublicsOf(s.own) && m.msg.keys == PublicsOf(m.sender.own) && c.valid(m.msg.keys)
    requires m.msg.sigma == AuthRSigma(m.from, s.own.ecdh.pub, TagAsResponder(m.from, m.sender, true, c.phi))
    ensures var o := ReceiveMessage(me, s, m.msg, n, c);
            && o.Outcome? && o.side.state == WaitingDakeData && o.reply.Some?
            && o.reply.value == AuthI(AuthISigma(me, m.sender.own.ecdh.pub, TagAsResponder(m.from, m.sender, false, c.phi)))
  {
  }

  /** p's answer reaches the other side, and what that replies reaches p. */
  function Concluded(w: World, p: Peer, m: nat, c: Setting): World {
    Step(Step(w, Deliver(OtherPeer(p), m), c), Deliver(p, |w.net|), c)
  }

  /** The answer on the network is signed over its sender's own transcript. */
  lemma AnswerSigned(w: World, p: Peer, m: nat, c: Setting)
    requires Inv(w, c) && Answered(w, p, m, c)
    ensures w.net[m].msg.sigma == AuthRSigma(p, w.Of(p).their.ecdh, TagAsResponder(p, w.Of(p), true, c.phi))
  {
    assert w.net[m] in w.net;
  }

  lemma FinalMessageAccepted(me: Peer, s: Side, m: Posted, n: nat, c: Setting)
    requires SideInv(me, s, n, c) && GenuineInv(m, n, c) && s.state == WaitingAuthI && m.from == OtherPeer(me)
    requires m.msg == AuthI(AuthISigma(m.from, s.own.ecdh.pub, TagAsResponder(me, s, false, c.phi)))
    ensures ReceiveMessage(me, s, m.msg, n, c).Outcome? && Agree(m.sender, ReceiveMessage(me, s, m.msg, n, c).side)
  {
  }

  /** The first of the two deliveries. */
  lemma AnswerArrives(w: World, p: Peer, m: nat, c: Setting) returns (w1: World)
    requires Reachable(w, c) && Answered(w, p, m, c)
    ensures w1 == Step(w, Deliver(OtherPeer(p), m), c) && Reachable(w1, c) && |w1.net| == |w.net| + 1
    ensures w1.Of(p) == w.Of(p) && w1.Of(p).state == WaitingAuthI
    ensures var reply := w1.net[|w.net|];
            && reply.from == OtherPeer(p) && reply.sender == w1.Of(OtherPeer(p)) && reply.genuine
            && reply.msg == AuthI(AuthISigma(OtherPeer(p), w.Of(p).own.ecdh.pub, TagAsResponder(p, w.Of(p), false, c.phi)))
  {
    var q := OtherPeer(p);
    Delivered(w, q, m, c);
    ReachableInv(w, c);
    AnswerSigned(w, p, m, c);
    AnswerAccepted(q, w.Of(q), w.net[m], w.next, c);
    StepMoves(w, q, m, c);
    StepReachable(w, Deliver(q, m), c);
    w1 := Step(w, Deliver(q, m), c);
  }

  /** Once an offer is answered, two more deliveries complete the exchange: the side that made
      the offer as 'u', the side that answered as 't'. */
  lemma AnsweredCompletes(w: World, p: Peer, m: nat, c: Setting)
    requires Reachable(w, c) && Answered(w, p, m, c)
    ensures Agree(Concluded(w, p, m, c).Of(OtherPeer(p)), Concluded(w, p, m, c).Of(p))
  {
    var w1 := AnswerArrives(w, p, m, c);
    Delivered(w1, p, |w.net|, c);
    FinalMessageAccepted(p, w1.Of(p), w1.net[|w.net|], w1.next, c);
    StepMoves(w1, p, |w.net|, c);
  }

  lemma CrossedFirstHalf(w: World, p: Peer, mine: nat, theirs: nat, c: Setting) returns (w2: World)
    requires Reachable(w, c) && Offered(w, p, mine, c) && Offered(w, OtherPeer(p), theirs, c) && OwnKeysValid(c)
    requires c.value(w.Of(p).own.dh.pub) < c.value(w.Of(OtherPeer(p)).own.dh.pub)
    ensures w2 == Step(Step(w, Deliver(p, theirs), c), Deliver(OtherPeer(p), mine), c)
    ensures Reachable(w2, c) && Answered(w2, p, |w.net|, c) && |w2.net| == |w.net| + 1
  {
    var q := OtherPeer(p);
    var w1 := Step(w, Deliver(p, theirs), c);
    var keys := PublicsOf(w.Of(p).own);
    OfferAnswered(w, p, theirs, c);
    StepMoves(w, p, theirs, c);
    StepReachable(w, Deliver(p, theirs), c);
    OfferIgnored(w1, q, mine, keys, c);
    StepReachable(w1, Deliver(q, mine), c);
    w2 := Step(w1, Deliver(q, mine), c);
  }

  /** A crossed exchange completes: the side p with the lower DH key answers, the other one
      ignores, and two more deliveries leave them in agreement. */
  lemma CrossedExchangeCompletes(w: World, p: Peer, mine: nat, theirs: nat, c: Setting)
    requires Reachable(w, c) && Offered(w, p, mine, c) && Offered(w, OtherPeer(p), theirs, c) && OwnKeysValid(c)
    requires c.value(w.Of(p).own.dh.pub) < c.value(w.Of(OtherPeer(p)).own.dh.pub)
    ensures var w2 := Step(Step(w, Deliver(p, theirs), c), Deliver(OtherPeer(p), mine), c);
            var w4 := Concluded(w2, p, |w.net|, c);
            Agree(w4.Of(OtherPeer(p)), w4.Of(p))
  {
    var w2 := CrossedFirstHalf(w, p, mine, theirs, c);
    AnsweredCompletes(w2, p, |w.net|, c);
  }

  // ------------------------------------------------------------ the session that follows

  /** The key manager a completed side enters the data message phase with. */
  function ManagerOf(s: Side): KM.Manager {
    KM.Manager(KM.KeyPairs(s.own.ecdh, s.own.dh, s.their.ecdh, s.their.dh), KM.Counters(0, 0, 0, 0),
               KM.Chains(s.rootKey, Zeros, Zeros), KM.Scratch(Zeros, s.sharedSecret, Zeros), [], [])
  }

  /** The states two agreeing sides hold are exactly where a ratchet session starts, so all
      results about honest sessions hold after every completed exchange. */
  lemma ExchangeStartsSession(w: World, p: Peer, m: nat, c: Setting) returns (h: nat)
    requires Reachable(w, c) && Allowed(w, Deliver(p, m))
    requires Step(w, Deliver(p, m), c).Of(p).state == Encrypted
    ensures h < |w.net| && w.net[h].genuine && w.net[h].from == OtherPeer(p)
    ensures var t, u := Step(w, Deliver(p, m), c).Of(p), w.net[h].sender;
            RatchetSession.Initial(
              RatchetSession.Start(u.own.ecdh.pub, u.own.dh.pub, u.rootKey, u.their.ecdh, u.their.dh),
              RatchetSession.Session(ManagerOf(t), ManagerOf(u), false, [], map[], {}, {},
                                     RatchetSession.Macs(multiset{}, multiset{}, multiset{}),
                                     RatchetSession.Macs(multiset{}, multiset{}, multiset{})))
  {
    h := TAgreement(w, p, m, c);
  }
}
