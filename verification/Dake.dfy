/**
 The interactive key exchange: what each side does with the messages of the other.
 'b' of the specification is the initiator, 'a' the responder.
 */
module Dake {
  import opened Prelude
  import opened Keys

  datatype Peer = Alice | Bob

  function OtherPeer(p: Peer): Peer { if p == Alice then Bob else Alice }

  datatype State = StateStart | WaitingAuthR | WaitingAuthI | WaitingDakeData | Encrypted

  datatype Pairs = Pairs(ecdh: EcPair, dh: DhPair, ecdhFirst: EcPair, dhFirst: DhPair)
  datatype Publics = Publics(ecdh: KeyId, dh: KeyId, ecdhFirst: KeyId, dhFirst: KeyId)

  /** One conversation, as far as the key exchange touches it. */
  datatype Side = Side(
    state: State, own: Pairs, their: Publics,
    sharedSecret: Term, ssid: Term, ssidHalfFirst: bool, rootKey: Term)

  // ------------------------------------------------------------ shared session

  /** Byte-wise string order. */
  predicate StrLess(a: string, b: string) {
    if b == "" then false
    else if a == "" then true
    else a[0] < b[0] || (a[0] == b[0] && StrLess(a[1..], b[1..]))
  }

  lemma {:induction false} StrLessTotal(a: string, b: string)
    ensures StrLess(a, b) || StrLess(b, a) || a == b
    ensures !(StrLess(a, b) && StrLess(b, a))
  {
    if a != "" && b != "" {
      StrLessTotal(a[1..], b[1..]);
      assert a == [a[0]] + a[1..] && b == [b[0]] + b[1..];
    }
  }

  /** What the application says about the conversation. */
  datatype SessionState = SessionState(identifier1: string, identifier2: string, password: string)

  function SessionString(s: SessionState): string {
    (if StrLess(s.identifier1, s.identifier2) then s.identifier1 + s.identifier2
     else s.identifier2 + s.identifier1) + s.password
  }

  /** phi: both instance tags, truncated to 16 bits, the smaller one first, and the session string. */
  datatype Phi = Phi(smaller: nat, larger: nat, state: string)

  function MakePhi(ourTag: nat, theirTag: nat, s: SessionState): Phi {
    var our, their := ourTag % 0x1_0000, theirTag % 0x1_0000;
    if our < their then Phi(our, their, SessionString(s)) else Phi(their, our, SessionString(s))
  }

  /** Both sides come to the same phi, whatever order each lists tags and identifiers in. */
  lemma PhiAgreement(tag1: nat, tag2: nat, x: string, y: string, password: string)
    ensures MakePhi(tag1, tag2, SessionState(x, y, password)) == MakePhi(tag2, tag1, SessionState(y, x, password))
  {
    StrLessTotal(x, y);
  }

  // ------------------------------------------------------------ signatures

  datatype RingKey = LongTerm(owner: Peer) | Forging(owner: Peer) | Ephemeral(key: KeyId)

  /** The transcript each ring signature is over. */
  datatype Tag = Tag(authR: bool, initiator: Peer, responder: Peer,
                     iEcdh: KeyId, rEcdh: KeyId, iDh: KeyId, rDh: KeyId, phi: Phi)

  /** A ring signature is only good for the ring and the message it was made for. */
  datatype Sigma = Sigma(a1: RingKey, a2: RingKey, a3: RingKey, tag: Tag)

  function AuthRSigma(responder: Peer, y: KeyId, tag: Tag): Sigma {
    Sigma(Forging(OtherPeer(responder)), LongTerm(responder), Ephemeral(y), tag)
  }

  function AuthISigma(initiator: Peer, x: KeyId, tag: Tag): Sigma {
    Sigma(LongTerm(initiator), Forging(OtherPeer(initiator)), Ephemeral(x), tag)
  }

  datatype Message =
    | Identity(keys: Publics)
    | AuthR(keys: Publics, sigma: Sigma)
    | AuthI(sigma: Sigma)

  /** Next state of the side, and the reply if there is one. Undefined when an exchange needs a private half
      that is gone, for which the source makes no check. */
  datatype Outcome = Outcome(side: Side, reply: Option<Message>) | Undefined

  /** The comparison of public keys, the phi both sides compute, and which received keys pass the checks of
      points, 3072-bit keys, instance tags and profile. */
  datatype Setting = Setting(value: KeyId -> int, phi: Phi, valid: Publics -> bool)

  // ------------------------------------------------------------ key derivation

  function PublicsOf(own: Pairs): Publics {
    Publics(own.ecdh.pub, own.dh.pub, own.ecdhFirst.pub, own.dhFirst.pub)
  }

  /** Fresh ephemeral keys; a key manager at ratchet 0 makes new 3072-bit keys too. */
  function FreshPairs(n: nat): Pairs {
    Pairs(EcPair(Live(Dake(2 * n)), Dake(2 * n)), DhPair(Some(Dake(2 * n)), Dake(2 * n)),
          EcPair(Live(Dake(2 * n + 1)), Dake(2 * n + 1)), DhPair(Some(Dake(2 * n + 1)), Dake(2 * n + 1)))
  }

  function DakeSecret(ecdh: Term, dh: Term): Term {
    MixedSecret(ecdh, Kdf1(USAGE_THIRD_BRACE_KEY, dh))
  }

  /** The shared secret of own and received keys, the session id, and which half of it this
      side shows first. The private halves are erased. None without a DH private half. */
  function GenerateSharedSecret(s: Side, value: KeyId -> int): Option<Side> {
    match s.own.dh.priv
    case None => None
    case Some(priv) =>
      var ss := DakeSecret(Ecdh(s.own.ecdh.priv, s.their.ecdh), Dh(priv, s.their.dh));
      Some(s.(sharedSecret := ss, ssid := Kdf1(USAGE_SSID, ss),
              ssidHalfFirst := !(value(s.own.dh.pub) > value(s.their.dh)),
              own := s.own.(ecdh := s.own.ecdh.(priv := Erased), dh := s.own.dh.(priv := None))))
  }

  function FirstEcdh(ss: Term): KeyId { Derived(Kdf1(USAGE_ECDH_FIRST_EPHEMERAL, ss)) }
  function FirstDh(ss: Term): KeyId { Derived(Kdf1(USAGE_DH_FIRST_EPHEMERAL, ss)) }

  /** The first keys of both ratchets come from the shared secret: 'u' gets the pair, 't' the
      public halves. The first root key replaces the shared secret. */
  function RatchetingInit(s: Side, isU: bool): Side {
    var ss := s.sharedSecret;
    var own := Pairs(s.own.ecdhFirst, s.own.dhFirst, s.own.ecdhFirst, s.own.dhFirst);
    var their := Publics(s.their.ecdhFirst, s.their.dhFirst, s.their.ecdhFirst, s.their.dhFirst);
    var s1 := s.(rootKey := Kdf1(USAGE_FIRST_ROOT_KEY, ss), sharedSecret := Zeros);
    if isU then
      s1.(own := own.(ecdh := EcPair(Live(FirstEcdh(ss)), FirstEcdh(ss)), dh := DhPair(Some(FirstDh(ss)), FirstDh(ss))),
          their := their)
    else
      s1.(own := own, their := their.(ecdh := FirstEcdh(ss), dh := FirstDh(ss)))
  }

  // ------------------------------------------------------------ message handling

  /** The tag as the initiator me sees it. */
  function TagAsInitiator(me: Peer, s: Side, x: KeyId, a: KeyId, authR: bool, phi: Phi): Tag {
    Tag(authR, me, OtherPeer(me), s.own.ecdh.pub, x, s.own.dh.pub, a, phi)
  }

  /** The tag as the responder me sees it. */
  function TagAsResponder(me: Peer, s: Side, authR: bool, phi: Phi): Tag {
    Tag(authR, OtherPeer(me), me, s.their.ecdh, s.own.ecdh.pub, s.their.dh, s.own.dh.pub, phi)
  }

  function BuildIdentityMessage(s: Side, n: nat): Outcome {
    var own := FreshPairs(n);
    Outcome(s.(own := own, state := WaitingAuthR), Some(Identity(PublicsOf(own))))
  }

  function AnswerIdentity(me: Peer, s: Side, keys: Publics, n: nat, c: Setting): Outcome {
    var s1 := s.(their := keys, own := FreshPairs(n));
    var tag := TagAsResponder(me, s1, true, c.phi);
    var reply := AuthR(PublicsOf(s1.own), AuthRSigma(me, keys.ecdh, tag));
    match GenerateSharedSecret(s1, c.value)
    case None => Undefined
    case Some(s2) => Outcome(s2.(state := WaitingAuthI), Some(reply))
  }

  /** Of two crossing identity messages the one with the higher DH key wins: its sender
      ignores the other one. */
  function ReceiveIdentity(me: Peer, s: Side, keys: Publics, n: nat, c: Setting): Outcome {
    if !c.valid(keys) then Outcome(s, None)
    else if s.state == WaitingAuthR && c.value(s.own.dh.pub) > c.value(keys.dh) then Outcome(s, None)
    else AnswerIdentity(me, s, keys, n, c)
  }

  function ReceiveAuthR(me: Peer, s: Side, keys: Publics, sigma: Sigma, c: Setting): Outcome {
    var tagR := TagAsInitiator(me, s, keys.ecdh, keys.dh, true, c.phi);
    if s.state != WaitingAuthR || !c.valid(keys) || sigma != AuthRSigma(OtherPeer(me), s.own.ecdh.pub, tagR) then
      Outcome(s, None)
    else
      var s1 := s.(their := keys);
      var tagI := TagAsInitiator(me, s, keys.ecdh, keys.dh, false, c.phi);
      var reply := AuthI(AuthISigma(me, keys.ecdh, tagI));
      match GenerateSharedSecret(s1, c.value)
      case None => Undefined
      case Some(s2) => Outcome(RatchetingInit(s2, true).(state := WaitingDakeData), Some(reply))
  }

  function ReceiveAuthI(me: Peer, s: Side, sigma: Sigma, c: Setting): Outcome {
    if s.state != WaitingAuthI || sigma != AuthISigma(OtherPeer(me), s.own.ecdh.pub, TagAsResponder(me, s, false, c.phi))
    then
      Outcome(s, None)
    else
      Outcome(RatchetingInit(s, false).(state := Encrypted), None)
  }

  function ReceiveMessage(me: Peer, s: Side, msg: Message, n: nat, c: Setting): Outcome {
    match msg
    case Identity(keys) => ReceiveIdentity(me, s, keys, n, c)
    case AuthR(keys, sigma) => ReceiveAuthR(me, s, keys, sigma, c)
    case AuthI(sigma) => ReceiveAuthI(me, s, sigma, c)
  }
}
