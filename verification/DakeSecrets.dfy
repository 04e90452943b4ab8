/**
 What the key exchange stands for: equal secrets mean equal key pairs, a signature is accepted for one
 transcript only, phi tells conversations apart, and a fresh exchange completes.
 */
module DakeSecrets {
  import opened Prelude
  import opened Keys
  import opened Dake
  import opened DakeRun

  // ------------------------------------------------------------ the secret

  /** The shared secret is that of these two pairs, and nothing else has it. */
  lemma SecretBinds(y: KeyId, b: KeyId, x: KeyId, a: KeyId, y': KeyId, b': KeyId, x': KeyId, a': KeyId)
    ensures SecretOf(y, b, x, a) == SecretOf(y', b', x', a')
            <==> multiset{y, x} == multiset{y', x'} && multiset{b, a} == multiset{b', a'}
  {
  }

  /** Everything a side goes on to derive from the secret tells secrets apart, and no two of them are the same. */
  lemma DerivedApart(ss: Term, ss': Term)
    ensures Kdf1(USAGE_SSID, ss) == Kdf1(USAGE_SSID, ss') <==> ss == ss'
    ensures Kdf1(USAGE_FIRST_ROOT_KEY, ss) == Kdf1(USAGE_FIRST_ROOT_KEY, ss') <==> ss == ss'
    ensures FirstEcdh(ss) == FirstEcdh(ss') <==> ss == ss'
    ensures FirstDh(ss) == FirstDh(ss') <==> ss == ss'
    ensures FirstEcdh(ss) != FirstDh(ss') && Kdf1(USAGE_SSID, ss) != Kdf1(USAGE_FIRST_ROOT_KEY, ss')
    ensures FirstEcdh(ss) != Derived(Kdf1(USAGE_SSID, ss')) && FirstEcdh(ss) != Derived(Kdf1(USAGE_FIRST_ROOT_KEY, ss'))
    ensures FirstDh(ss) != Derived(Kdf1(USAGE_SSID, ss')) && FirstDh(ss) != Derived(Kdf1(USAGE_FIRST_ROOT_KEY, ss'))
  {
  }

  /** Two transcripts with the same keys exchanged, whoever made which offer. */
  predicate SameKeyPairs(t: Tag, t': Tag) {
    multiset{t.iEcdh, t.rEcdh} == multiset{t'.iEcdh, t'.rEcdh} && multiset{t.iDh, t.rDh} == multiset{t'.iDh, t'.rDh}
  }

  lemma TranscriptSecret(t: Tag, t': Tag)
    ensures TagSecret(t) == TagSecret(t') <==> SameKeyPairs(t, t')
  {
    SecretBinds(t.iEcdh, t.iDh, t.rEcdh, t.rDh, t'.iEcdh, t'.iDh, t'.rEcdh, t'.rDh);
  }

  /** A side with its own private halves derives the secret of exactly its pairs: two sides, of one conversation or of
      two, come out of it with the same session id if and only if the pairs are the same. */
  lemma GeneratedBinds(s: Side, s': Side, c: Setting, c': Setting)
    requires s.own.ecdh.priv == Live(s.own.ecdh.pub) && s.own.dh.priv == Some(s.own.dh.pub)
    requires s'.own.ecdh.priv == Live(s'.own.ecdh.pub) && s'.own.dh.priv == Some(s'.own.dh.pub)
    ensures var o, o' := GenerateSharedSecret(s, c.value), GenerateSharedSecret(s', c'.value);
            && o.Some? && o'.Some?
            && (o.value.ssid == o'.value.ssid <==> o.value.sharedSecret == o'.value.sharedSecret)
            && (o.value.sharedSecret == o'.value.sharedSecret <==>
                  && multiset{s.own.ecdh.pub, s.their.ecdh} == multiset{s'.own.ecdh.pub, s'.their.ecdh}
                  && multiset{s.own.dh.pub, s.their.dh} == multiset{s'.own.dh.pub, s'.their.dh})
  {
  }

  /** The session id and the root key of a completed exchange. */
  predicate CompletedWith(s: Side, t: Tag, c: Setting) { UCompleted(s, t, c) || TCompleted(s, t, c) }

  /** Two completed sides, in whatever exchanges, have the same session id, or the same first root key, if and only if
      the same keys were exchanged. */
  lemma CompletedBinds(s: Side, t: Tag, c: Setting, s': Side, t': Tag, c': Setting)
    requires CompletedWith(s, t, c) && CompletedWith(s', t', c')
    ensures s.ssid == s'.ssid <==> SameKeyPairs(t, t')
    ensures s.rootKey == s'.rootKey <==> SameKeyPairs(t, t')
  {
    TranscriptSecret(t, t');
    DerivedApart(TagSecret(t), TagSecret(t'));
  }

  /** In any two runs: two sides that complete as 't' with the same session id exchanged the same keys. */
  lemma SameSessionSameKeys(w: World, p: Peer, m: nat, c: Setting, w': World, p': Peer, m': nat, c': Setting)
    requires Reachable(w, c) && Allowed(w, Deliver(p, m)) && Step(w, Deliver(p, m), c).Of(p).state == Encrypted
    requires Reachable(w', c') && Allowed(w', Deliver(p', m')) && Step(w', Deliver(p', m'), c').Of(p').state == Encrypted
    requires Step(w, Deliver(p, m), c).Of(p).ssid == Step(w', Deliver(p', m'), c').Of(p').ssid
    ensures w.net[m].msg.AuthI? && w'.net[m'].msg.AuthI?
    ensures SameKeyPairs(w.net[m].msg.sigma.tag, w'.net[m'].msg.sigma.tag)
  {
    var t, h := CompletedTranscript(w, p, m, c);
    var t', h' := CompletedTranscript(w', p', m', c');
    CompletedBinds(Step(w, Deliver(p, m), c).Of(p), t, c, Step(w', Deliver(p', m'), c').Of(p'), t', c');
  }

  lemma CompletedTranscript(w: World, p: Peer, m: nat, c: Setting) returns (t: Tag, h: nat)
    requires Reachable(w, c) && Allowed(w, Deliver(p, m)) && Step(w, Deliver(p, m), c).Of(p).state == Encrypted
    ensures w.net[m].msg.AuthI? && t == w.net[m].msg.sigma.tag && TCompleted(Step(w, Deliver(p, m), c).Of(p), t, c)
  {
    h := TAgreement(w, p, m, c);
    t := w.net[m].msg.sigma.tag;
  }

  /** The four pairs that are generated together are new: none is another one of them, or one of another time. */
  lemma FreshKeysDistinct(n: nat, m: nat)
    ensures var x, y := FreshPairs(n), FreshPairs(m);
            && x.ecdh.pub != y.ecdhFirst.pub && x.dh.pub != y.dhFirst.pub
            && (n != m ==> x.ecdh.pub != y.ecdh.pub && x.ecdhFirst.pub != y.ecdhFirst.pub)
            && (n != m ==> x.dh.pub != y.dh.pub && x.dhFirst.pub != y.dhFirst.pub)
    ensures FreshPairs(n).ecdh.priv == Live(FreshPairs(n).ecdh.pub) && FreshPairs(n).dh.priv == Some(FreshPairs(n).dh.pub)
    ensures FreshPairs(n).ecdhFirst.priv == Live(FreshPairs(n).ecdhFirst.pub)
    ensures FreshPairs(n).dhFirst.priv == Some(FreshPairs(n).dhFirst.pub)
  {
  }

  // ------------------------------------------------------- what is signed

  /** The side answers or completes: it does not just drop the message. */
  predicate Moves(s: Side, o: Outcome) { o.Undefined? || o.side.state != s.state || o.reply.Some? }

  /** An Auth-R signature is good for one transcript: whoever accepts it, in whatever conversation, is the same party,
      with the same own keys, the same keys of the other side, and the same phi. */
  lemma AuthRBinds(me: Peer, s: Side, keys: Publics, c: Setting, me': Peer, s': Side, keys': Publics, c': Setting,
                   sigma: Sigma)
    requires Moves(s, ReceiveAuthR(me, s, keys, sigma, c)) && Moves(s', ReceiveAuthR(me', s', keys', sigma, c'))
    ensures me == me' && c.phi == c'.phi && keys.ecdh == keys'.ecdh && keys.dh == keys'.dh
    ensures s.own.ecdh.pub == s'.own.ecdh.pub && s.own.dh.pub == s'.own.dh.pub
  {
  }

  /** An Auth-I signature likewise. */
  lemma AuthIBinds(me: Peer, s: Side, c: Setting, me': Peer, s': Side, c': Setting, sigma: Sigma)
    requires Moves(s, ReceiveAuthI(me, s, sigma, c)) && Moves(s', ReceiveAuthI(me', s', sigma, c'))
    ensures me == me' && c.phi == c'.phi && s.their.ecdh == s'.their.ecdh && s.their.dh == s'.their.dh
    ensures s.own.ecdh.pub == s'.own.ecdh.pub && s.own.dh.pub == s'.own.dh.pub
  {
  }

  /** And neither passes for the other. */
  lemma SignaturesApart(me: Peer, s: Side, keys: Publics, c: Setting, me': Peer, s': Side, c': Setting, sigma: Sigma)
    requires Moves(s, ReceiveAuthR(me, s, keys, sigma, c))
    ensures ReceiveAuthI(me', s', sigma, c') == Outcome(s', None)
  {
  }

  /** Received keys that do not pass the checks have no effect at all. */
  lemma OnlyValidKeys(me: Peer, s: Side, keys: Publics, sigma: Sigma, n: nat, c: Setting)
    requires !c.valid(keys)
    ensures ReceiveMessage(me, s, Identity(keys), n, c) == Outcome(s, None)
    ensures ReceiveMessage(me, s, AuthR(keys, sigma), n, c) == Outcome(s, None)
  {
  }

  /** Nor has an Auth-R or an Auth-I in a state that does not wait for it. */
  lemma OnlyWhenWaiting(me: Peer, s: Side, keys: Publics, sigma: Sigma, n: nat, c: Setting)
    ensures s.state != WaitingAuthR ==> ReceiveMessage(me, s, AuthR(keys, sigma), n, c) == Outcome(s, None)
    ensures s.state != WaitingAuthI ==> ReceiveMessage(me, s, AuthI(sigma), n, c) == Outcome(s, None)
  {
  }

  /** The side holds the private half of a key of a ring. */
  predicate HoldsKey(p: Peer, s: Side, k: RingKey) {
    match k
    case LongTerm(owner) => owner == p
    case Forging(owner) => owner == p
    case Ephemeral(key) => key == s.own.ecdh.pub
  }

  function Ring(sigma: Sigma): multiset<RingKey> { multiset{sigma.a1, sigma.a2, sigma.a3} }

  /** Deniability: of the ring of an Auth-R the responder holds one key, its long-term key, and the initiator the two
      others; so either could have signed. */
  lemma EitherSignsAuthR(i: Peer, u: Side, t: Side, c: Setting)
    requires u.own.ecdh.pub != t.own.ecdh.pub
    ensures var r := OtherPeer(i);
            var sigma := AuthRSigma(r, u.own.ecdh.pub, TagAsInitiator(i, u, t.own.ecdh.pub, t.own.dh.pub, true, c.phi));
            && (forall k | k in Ring(sigma) :: HoldsKey(r, t, k) <==> k == LongTerm(r))
            && (forall k | k in Ring(sigma) :: HoldsKey(i, u, k) <==> k != LongTerm(r))
            && |Ring(sigma)| == 3 && Ring(sigma)[LongTerm(r)] == 1
  {
  }

  /** Of the ring of an Auth-I likewise the initiator holds its long-term key and the responder the two others. */
  lemma EitherSignsAuthI(i: Peer, u: Side, t: Side, c: Setting)
    requires u.own.ecdh.pub != t.own.ecdh.pub
    ensures var r := OtherPeer(i);
            var sigma := AuthISigma(i, t.own.ecdh.pub, TagAsInitiator(i, u, t.own.ecdh.pub, t.own.dh.pub, false, c.phi));
            && (forall k | k in Ring(sigma) :: HoldsKey(i, u, k) <==> k == LongTerm(i))
            && (forall k | k in Ring(sigma) :: HoldsKey(r, t, k) <==> k != LongTerm(i))
            && |Ring(sigma)| == 3 && Ring(sigma)[LongTerm(i)] == 1
  {
  }

  /** What others can post in a run: any offer, and any signature seen before or over a ring with a key of theirs. */
  lemma OthersPost(net: seq<Posted>, keys: Publics, sigma: Sigma, m: Posted)
    requires Named(keys.ecdhFirst)
    ensures CanForge(net, Identity(keys))
    ensures (m in net && SigmaOf(m.msg) == Some(sigma)) || Ephemeral(Outsider(0)) in Ring(sigma) ==>
              CanForge(net, AuthR(keys, sigma)) && CanForge(net, AuthI(sigma))
  {
  }

  // ----------------------------------------------------------------- phi

  /** Byte-wise order: at the first difference the smaller byte decides, and a string comes after what it begins with. */
  lemma {:induction false} StrLessIs(a: string, b: string)
    ensures StrLess(a, b) <==>
              exists n: nat :: n <= |a| && n < |b| && a[..n] == b[..n] && (n < |a| ==> a[n] < b[n])
  {
    if a != "" && b != "" {
      StrLessIs(a[1..], b[1..]);
      if StrLess(a, b) {
        if a[0] < b[0] {
          assert a[..0] == b[..0];
        } else {
          var n: nat :| n <= |a[1..]| && n < |b[1..]| && a[1..][..n] == b[1..][..n] && (n < |a[1..]| ==> a[1..][n] < b[1..][n]);
          assert a[..n + 1] == [a[0]] + a[1..][..n] && b[..n + 1] == [b[0]] + b[1..][..n];
        }
      }
      if n: nat :| n <= |a| && n < |b| && a[..n] == b[..n] && (n < |a| ==> a[n] < b[n]) {
        if n > 0 {
          assert a[0] == a[..n][0] && b[0] == b[..n][0];
          assert a[1..][..n - 1] == a[..n][1..] && b[1..][..n - 1] == b[..n][1..];
        }
      }
    } else if b != "" {
      assert a[..0] == b[..0];
    }
  }

  /** The identifiers in order. */
  function Sorted(s: SessionState): (string, string) {
    if StrLess(s.identifier1, s.identifier2) then (s.identifier1, s.identifier2) else (s.identifier2, s.identifier1)
  }

  lemma SplitEqual(a: string, b: string, c: string, d: string)
    requires a + b == c + d && |a| == |c|
    ensures a == c && b == d
  {
    assert (a + b)[..|a|] == a && (c + d)[..|c|] == c;
    assert (a + b)[|a|..] == b && (c + d)[|c|..] == d;
  }

  /** When identifiers have the same lengths the session string tells conversations apart: it is the same exactly for
      the same two identifiers, in either order, and the same password. */
  lemma SessionStringBinds(s: SessionState, t: SessionState)
    requires |Sorted(s).0| == |Sorted(t).0| && |Sorted(s).1| == |Sorted(t).1|
    ensures SessionString(s) == SessionString(t) <==> Sorted(s) == Sorted(t) && s.password == t.password
  {
    if SessionString(s) == SessionString(t) {
      SplitEqual(Sorted(s).0 + Sorted(s).1, s.password, Sorted(t).0 + Sorted(t).1, t.password);
      SplitEqual(Sorted(s).0, Sorted(s).1, Sorted(t).0, Sorted(t).1);
    }
  }

  /** Otherwise it may not: nothing separates the parts. */
  lemma SessionStringAmbiguous()
    ensures SessionString(SessionState("ab", "c", "")) == SessionString(SessionState("a", "bc", "")) == "abc"
  {
  }

  /** phi shows the truncated tags with the smaller one first. */
  lemma PhiInOrder(a: nat, b: nat, s: SessionState)
    ensures var phi := MakePhi(a, b, s);
            && phi.smaller <= phi.larger
            && multiset{phi.smaller, phi.larger} == multiset{a % 0x1_0000, b % 0x1_0000}
  {
    TwoInOrder(MakePhi(a, b, s).smaller, MakePhi(a, b, s).larger, a % 0x1_0000, b % 0x1_0000);
  }

  /** phi is the same exactly for the same two truncated instance tags, in either order, and the same session string. */
  lemma PhiBinds(a: nat, b: nat, s: SessionState, c: nat, d: nat, t: SessionState)
    ensures MakePhi(a, b, s) == MakePhi(c, d, t) <==>
              && multiset{a % 0x1_0000, b % 0x1_0000} == multiset{c % 0x1_0000, d % 0x1_0000}
              && SessionString(s) == SessionString(t)
  {
    TwoInOrder(a % 0x1_0000, b % 0x1_0000, c % 0x1_0000, d % 0x1_0000);
  }

  lemma TwoInOrder(a: nat, b: nat, c: nat, d: nat)
    ensures multiset{a, b} == multiset{c, d} <==> (a == c && b == d) || (a == d && b == c)
  {
    if multiset{a, b} == multiset{c, d} {
      assert a in multiset{c, d} && b in multiset{c, d} && c in multiset{a, b} && d in multiset{a, b};
    }
  }

  // ------------------------------------------------------- it completes

  /** An exchange from the very start: one side offers, the other answers, the first confirms, and both have completed
      in agreement. */
  lemma FreshExchangeCompletes(w: World, p: Peer, c: Setting)
    requires Fresh(w) && OwnKeysValid(c)
    ensures var w2 := Step(Step(w, Start(p), c), Deliver(OtherPeer(p), 0), c);
            var done := Concluded(w2, OtherPeer(p), 1, c);
            Agree(done.Of(p), done.Of(OtherPeer(p)))
  {
    assert Legal(w, [], c) && w == Run(w, [], c);
    assert Reachable(w, c);
    var w1 := Step(w, Start(p), c);
    StepReachable(w, Start(p), c);
    assert c.valid(PublicsOf(FreshPairs(w.next)));
    assert Offered(w1, p, 0, c);
    StepReachable(w1, Deliver(OtherPeer(p), 0), c);
    OfferAnswered(w1, OtherPeer(p), 0, c);
    AnsweredCompletes(Step(w1, Deliver(OtherPeer(p), 0), c), OtherPeer(p), 1, c);
  }
}
