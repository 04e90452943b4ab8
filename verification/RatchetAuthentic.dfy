/** What keys stand for: no two places of a session share a key, equal keys mean equal histories, and a message is only
    accepted under a key that is still unused. */
module RatchetAuthentic {
  import opened Prelude
  import opened Keys
  import opened KeyManager
  import opened RatchetSession
  import opened RatchetProofs
  import opened RatchetReceive
  import opened RatchetDelivery
  import opened RatchetTheorems

  // ------------------------------------------------------------ keys are apart

  lemma SameChainPlace(st: Start, r: nat, id: nat, r': nat, id': nat)
    requires StartInv(st) && ChainAt(ChainOf(st, r), id) == ChainAt(ChainOf(st, r'), id')
    ensures r == r' && id == id'
  {
    ChainAtInjective(RootOf(st, r + 1), MixOf(st, r), id, RootOf(st, r' + 1), MixOf(st, r'), id');
    RootDepthOf(st, r + 1);
    RootDepthOf(st, r' + 1);
  }

  /** No key is used for two messages. */
  lemma KeysDistinct(st: Start, r: nat, id: nat, r': nat, id': nat)
    requires StartInv(st)
    ensures KeysOf(st, r, id).enc == KeysOf(st, r', id').enc <==> (r, id) == (r', id')
    ensures KeysOf(st, r, id).mac == KeysOf(st, r', id').mac <==> (r, id) == (r', id')
    ensures KeysOf(st, r, id).extra == KeysOf(st, r', id').extra <==> (r, id) == (r', id')
  {
    if ChainAt(ChainOf(st, r), id) == ChainAt(ChainOf(st, r'), id') {
      SameChainPlace(st, r, id, r', id');
    }
  }

  /** Nor for two purposes: revealing a MAC key reveals no encryption, extra, chain or root key of the session. */
  lemma PurposesDistinct(st: Start, r: nat, id: nat, r': nat, id': nat)
    requires StartInv(st)
    ensures var mac := KeysOf(st, r, id).mac;
            && mac != KeysOf(st, r', id').enc && mac != KeysOf(st, r', id').extra
            && mac != ChainAt(ChainOf(st, r'), id') && mac != RootOf(st, r' + 1)
    ensures KeysOf(st, r, id).extra != KeysOf(st, r', id').enc
    ensures KeysOf(st, r, id).extra != ChainAt(ChainOf(st, r'), id') && KeysOf(st, r, id).enc != ChainAt(ChainOf(st, r'), id')
  {
    if id' > 0 {
      assert ChainAt(ChainOf(st, r'), id') == NextChain(ChainAt(ChainOf(st, r'), id' - 1));
    }
  }

  /** No usage byte serves two derivations. */
  lemma UsagesDistinct()
    ensures NoDuplicates([USAGE_THIRD_BRACE_KEY, USAGE_BRACE_KEY, USAGE_SHARED_SECRET, USAGE_SSID, USAGE_FIRST_ROOT_KEY,
                          USAGE_ECDH_FIRST_EPHEMERAL, USAGE_DH_FIRST_EPHEMERAL, USAGE_ROOT_KEY, USAGE_CHAIN_KEY,
                          USAGE_NEXT_CHAIN_KEY, USAGE_MESSAGE_KEY, USAGE_MAC_KEY, USAGE_EXTRA_SYMM_KEY])
  {
  }

  /** Both elliptic-curve keys of ratchet r. */
  function EcPairOf(st: Start, r: nat): multiset<KeyId> { multiset{EcOf(st, r), EcOf(st, r - 1)} }

  /** Both 3072-bit keys of an exchange that is made on ratchet r. */
  function DhPairOf(st: Start, r: nat): multiset<KeyId> { multiset{DhOf(st, r), DhOf(st, r - 1)} }

  /** What went into ratchet r besides the root key before it: an exchange on the curve, and on every third
      ratchet one modulo p. */
  predicate SameExchanges(st: Start, st': Start, r: nat) {
    EcPairOf(st, r) == EcPairOf(st', r) && (r % 3 == 0 ==> DhPairOf(st, r) == DhPairOf(st', r))
  }

  lemma MixBinds(st: Start, st': Start, r: nat)
    requires MixOf(st, r) == MixOf(st', r)
    ensures SameExchanges(st, st', r)
  {
  }

  /** The root key that mixing these secrets in, one after the other, leads to. */
  function RootFrom(root: Term, mixes: seq<Term>): Term {
    if mixes == [] then root else NextRoot(RootFrom(root, mixes[..|mixes| - 1]), mixes[|mixes| - 1])
  }

  lemma {:induction false} RootFromBinds(root: Term, mixes: seq<Term>, root': Term, mixes': seq<Term>)
    requires |mixes| == |mixes'| && RootFrom(root, mixes) == RootFrom(root', mixes')
    ensures root == root' && mixes == mixes'
  {
    if mixes != [] {
      RootFromBinds(root, mixes[..|mixes| - 1], root', mixes'[..|mixes| - 1]);
      assert mixes == mixes[..|mixes| - 1] + [mixes[|mixes| - 1]];
    }
  }

  /** The secrets of the first r ratchets. */
  function MixesOf(st: Start, r: nat): seq<Term> { seq(r, x requires 0 <= x < r => MixOf(st, x)) }

  lemma {:induction false} RootIsFrom(st: Start, r: nat)
    ensures RootOf(st, r) == RootFrom(st.root, MixesOf(st, r))
  {
    if r > 0 {
      RootIsFrom(st, r - 1);
      assert MixesOf(st, r)[..r - 1] == MixesOf(st, r - 1);
    }
  }

  lemma ExchangeOf(st: Start, st': Start, r: nat, x: nat)
    requires x < r && MixesOf(st, r) == MixesOf(st', r)
    ensures SameExchanges(st, st', x)
  {
    assert MixesOf(st, r)[x] == MixesOf(st', r)[x];
    MixBinds(st, st', x);
  }

  /** Every secret that went in: equal root keys mean equal first root keys and the same exchanges all along. */
  lemma HistoryBinds(st: Start, st': Start, r: nat, x: nat)
    requires x < r && RootOf(st, r) == RootOf(st', r)
    ensures st.root == st'.root && SameExchanges(st, st', x)
  {
    RootIsFrom(st, r);
    RootIsFrom(st', r);
    RootFromBinds(st.root, MixesOf(st, r), st'.root, MixesOf(st', r));
    ExchangeOf(st, st', r, x);
  }

  lemma SharedKeySharesRoot(st: Start, st': Start, r: nat, id: nat, r': nat, id': nat)
    requires StartInv(st) && StartInv(st') && KeysOf(st, r, id).mac == KeysOf(st', r', id').mac
    ensures r == r' && id == id' && RootOf(st, r + 1) == RootOf(st', r + 1)
  {
    ChainAtInjective(RootOf(st, r + 1), MixOf(st, r), id, RootOf(st', r' + 1), MixOf(st', r'), id');
    RootDepthOf(st, r + 1);
    RootDepthOf(st', r' + 1);
  }

  /** Two sessions that share a message key share their whole history up to it. */
  lemma SharedKeySharesHistory(st: Start, st': Start, r: nat, id: nat, r': nat, id': nat, x: nat)
    requires StartInv(st) && StartInv(st') && KeysOf(st, r, id).mac == KeysOf(st', r', id').mac && x <= r
    ensures r == r' && id == id' && st.root == st'.root && SameExchanges(st, st', x)
  {
    SharedKeySharesRoot(st, st', r, id, r', id');
    HistoryBinds(st, st', r + 1, x);
  }

  // ------------------------------------------------------- what is accepted

  /** Acceptance means that authenticator and cipher text were made, over this very body, with the keys
      that were derived, which the key manager keeps: the MAC key to reveal, the extra key to export. */
  lemma AcceptedIsAuthentic(m: Manager, msg: DataMessage, maxSkip: nat)
    requires Receive(m, msg, maxSkip).Accepted?
    ensures var receipt := Receive(m, msg, maxSkip);
            && msg.mac == Authenticator(receipt.keys.mac, msg.body) && msg.body.encKey == receipt.keys.enc
            && receipt.payload == msg.body.payload
            && receipt.after.oldMacKeys == m.oldMacKeys + [receipt.keys.mac]
            && receipt.after.scratch.extra == receipt.keys.extra
  {
  }

  /** The sender holds the extra key of the message it sent last, too. */
  lemma ExtraKeyHeld(m: Manager, newKey: KeyId, payload: string)
    requires Send(m, newKey, payload).Some?
    ensures Send(m, newKey, payload).value.after.scratch.extra == Send(m, newKey, payload).value.keys.extra
  {
  }

  lemma {:induction false} ChainAtSum(start: Term, m: nat, n: nat)
    ensures ChainAt(ChainAt(start, m), n) == ChainAt(start, m + n)
  {
    if n > 0 {
      ChainAtSum(start, m, n - 1);
    }
  }

  lemma ChainSame(st: Start, r: nat, x: nat, r': nat, id: nat)
    requires StartInv(st) && KeysAt(ChainAt(ChainOf(st, r), x)).mac == KeysOf(st, r', id).mac
    ensures r == r' && x == id
  {
    SameChainPlace(st, r, x, r', id);
  }

  /** From the store come only keys of messages that are missing. */
  lemma StoredKey(st: Start, counts: seq<nat>, gone: set<(nat, nat)>, m: Manager, p: Party, b: Body, r: nat, id: nat,
                  maxSkip: nat)
    requires StartInv(st) && StoreInv(st, counts, gone, m.n, m.skipped, p)
    requires FindSkipped(m.skipped, b.ecdh, b.id).Some?
    requires DeriveKeys(m, b, maxSkip).keys.mac == KeysOf(st, r, id).mac
    ensures p == Other(SenderOf(r)) && (r, id) !in gone
  {
    var e := m.skipped[FindSkipped(m.skipped, b.ecdh, b.id).value];
    assert e in m.skipped;
    ChainSame(st, e.theirEcdh.r, e.k, r, id);
  }

  /** From the current chain only keys at or past the receive counter. */
  lemma CurrentKey(st: Start, counts: seq<nat>, m: Manager, p: Party, b: Body, r: nat, id: nat, maxSkip: nat)
    requires StartInv(st) && PartyInv(st, counts, m, p)
    requires FindSkipped(m.skipped, b.ecdh, b.id).None? && b.ecdh == m.pairs.theirEcdh
    requires DeriveKeys(m, b, maxSkip).keys.mac == KeysOf(st, r, id).mac
    ensures r == LastReceived(m.n.i, p) && m.n.k <= id
  {
    var last := LastReceived(m.n.i, p);
    if last < 0 {
      ChainNotZeros(st, r, id);
      assert false;
    } else {
      var x := StoreEncKeysGrowth(TempNew(m, b.ecdh, b.dh), b.id, maxSkip, b.ecdh);
      ChainAtSum(ChainOf(st, last), m.n.k, x);
      ChainSame(st, last, m.n.k + x, r, id);
    }
  }

  /** From a new chain only keys of the ratchet that comes next. */
  lemma NewKey(st: Start, m: Manager, b: Body, r: nat, id: nat, maxSkip: nat)
    requires StartInv(st) && m.chains.rootKey == RootOf(st, m.n.i)
    requires FindSkipped(m.skipped, b.ecdh, b.id).None? && b.ecdh != m.pairs.theirEcdh
    requires DeriveKeys(m, b, maxSkip).Attempt? && DeriveKeys(m, b, maxSkip).keys.mac == KeysOf(st, r, id).mac
    ensures r == m.n.i
  {
    var t0 := TempNew(m, b.ecdh, b.dh);
    var x0 := StoreEncKeysGrowth(t0, b.pn, maxSkip, m.pairs.theirEcdh);
    var t1 := RotateReceiving(m, StoreEncKeys(t0, b.pn, maxSkip, m.pairs.theirEcdh)).value;
    var x := StoreEncKeysGrowth(t1, b.id, maxSkip, b.ecdh);
    var brace := BraceKey(m.n.i, m.pairs.ourDh.priv, b.dh, m.scratch.braceKey).value;
    RootPlace(st, m.n.i, MixedSecret(Ecdh(m.pairs.ourEcdh.priv, b.ecdh), brace), x, r, id);
  }

  lemma RootPlace(st: Start, i: nat, k: Term, x: nat, r: nat, id: nat)
    requires StartInv(st)
    requires KeysAt(ChainAt(ChainStart(NextRoot(RootOf(st, i), k), k), x)).mac == KeysOf(st, r, id).mac
    ensures r == i
  {
    ChainAtInjective(NextRoot(RootOf(st, i), k), k, x, RootOf(st, r + 1), MixOf(st, r), id);
    RootDepthOf(st, i);
    RootDepthOf(st, r + 1);
  }

  /** A key of a sent message that a side still accepts anything under is one it has neither accepted nor lost, of
      a message of the other side. */
  lemma AcceptedKeyIsFresh(st: Start, s: Session, maxSkip: nat, p: Party, msg: DataMessage, r: nat, id: nat)
    requires Reachable(st, s, maxSkip) && (r, id) in s.log && Receive(s.Of(p), msg, maxSkip).Accepted?
    requires msg.mac.macKey == KeysOf(st, r, id).mac
    ensures p == Other(SenderOf(r)) && (r, id) !in s.Gone()
  {
    ReachableInv(st, s, maxSkip);
    assert SideInv(st, s, p);
    AcceptedIsAuthentic(s.Of(p), msg, maxSkip);
    FreshOf(st, s, p, msg.body, r, id, maxSkip);
  }

  lemma FreshOf(st: Start, s: Session, p: Party, b: Body, r: nat, id: nat, maxSkip: nat)
    requires StartInv(st) && LogInv(st, s.counts, s.log) && SideInv(st, s, p) && (r, id) in s.log
    requires DeriveKeys(s.Of(p), b, maxSkip).Attempt?
    requires DeriveKeys(s.Of(p), b, maxSkip).keys.mac == KeysOf(st, r, id).mac
    ensures p == Other(SenderOf(r)) && (r, id) !in s.Gone()
  {
    var m := s.Of(p);
    if FindSkipped(m.skipped, b.ecdh, b.id).Some? {
      StoredKey(st, s.counts, s.Gone(), m, p, b, r, id, maxSkip);
    } else {
      if b.ecdh == m.pairs.theirEcdh {
        CurrentKey(st, s.counts, m, p, b, r, id, maxSkip);
      } else {
        NewKey(st, m, b, r, id, maxSkip);
      }
      NotPassed(s.counts, m.n, p, r, id);
    }
  }

  lemma NotPassed(counts: seq<nat>, n: Counters, p: Party, r: nat, id: nat)
    requires CountersInv(counts, n, p) && id < Count(counts, r)
    requires (r == LastReceived(n.i, p) && n.k <= id) || r == n.i
    ensures p == Other(SenderOf(r)) && !Passed(counts, n, p, r, id)
  {
  }

  // --------------------------------------------------------- revealed MAC keys

  /** Every MAC key a side has accepted a message under is that of a message delivered to it. */
  ghost predicate MacsDelivered(st: Start, s: Session, p: Party) {
    forall k | k in s.MacsOf(p).accepted ::
      exists x :: x in s.delivered && p == Other(SenderOf(x.0)) && k == KeysOf(st, x.0, x.1).mac
  }

  lemma DeliveryStays(st: Start, s: Session, s': Session, p: Party)
    requires MacsDelivered(st, s, p) && s.delivered <= s'.delivered
    requires s'.MacsOf(p).accepted == s.MacsOf(p).accepted
    ensures MacsDelivered(st, s', p)
  {
    forall k | k in s'.MacsOf(p).accepted
      ensures exists x :: x in s'.delivered && p == Other(SenderOf(x.0)) && k == KeysOf(st, x.0, x.1).mac
    {
      var x :| x in s.delivered && p == Other(SenderOf(x.0)) && k == KeysOf(st, x.0, x.1).mac;
      assert x in s'.delivered;
    }
  }

  lemma DeliveryAdds(st: Start, s: Session, s': Session, p: Party, r: nat, id: nat)
    requires MacsDelivered(st, s, p) && s'.delivered == s.delivered + {(r, id)} && p == Other(SenderOf(r))
    requires s'.MacsOf(p).accepted == s.MacsOf(p).accepted + multiset{KeysOf(st, r, id).mac}
    ensures MacsDelivered(st, s', p)
  {
    forall k | k in s'.MacsOf(p).accepted
      ensures exists x :: x in s'.delivered && p == Other(SenderOf(x.0)) && k == KeysOf(st, x.0, x.1).mac
    {
      if k in s.MacsOf(p).accepted {
        var x :| x in s.delivered && p == Other(SenderOf(x.0)) && k == KeysOf(st, x.0, x.1).mac;
        assert x in s'.delivered;
      } else {
        assert (r, id) in s'.delivered && k == KeysOf(st, (r, id).0, (r, id).1).mac;
      }
    }
  }

  lemma SendAccepts(s: Session, p: Party, payload: string, q: Party)
    ensures SendStep(s, p, payload).MacsOf(q).accepted == s.MacsOf(q).accepted
    ensures SendStep(s, p, payload).delivered == s.delivered
  {
  }

  lemma InjectAccepts(s: Session, p: Party, msg: DataMessage, maxSkip: nat, q: Party)
    ensures InjectStep(s, p, msg, maxSkip).MacsOf(q) == s.MacsOf(q)
    ensures InjectStep(s, p, msg, maxSkip).delivered == s.delivered
  {
  }

  lemma DeliverAccepts(st: Start, s: Session, r: nat, id: nat, maxSkip: nat, q: Party)
    requires Inv(st, s) && HonestDelivery(s, r, id, maxSkip) && MacsDelivered(st, s, q)
    ensures MacsDelivered(st, DeliverStep(s, r, id, maxSkip), q)
  {
    var p := Other(SenderOf(r));
    var s' := DeliverStep(s, r, id, maxSkip);
    assert SideInv(st, s, p);
    DeliveryAccepted(st, s, p, r, id, maxSkip);
    DeliverStepShape(s, p, r, id, maxSkip);
    if q == p {
      DeliveryAdds(st, s, s', p, r, id);
    } else {
      DeliveryStays(st, s, s', q);
    }
  }

  lemma UnhandledAccepts(s: Session, r: nat, id: nat, maxSkip: nat, q: Party)
    ensures UnhandledStep(s, r, id, maxSkip).MacsOf(q).accepted == DeliverStep(s, r, id, maxSkip).MacsOf(q).accepted
    ensures UnhandledStep(s, r, id, maxSkip).delivered == DeliverStep(s, r, id, maxSkip).delivered
  {
  }

  lemma StepKeepsMacs(st: Start, s: Session, e: Event, maxSkip: nat, q: Party)
    requires Inv(st, s) && HonestEvent(s, e, maxSkip) && MacsDelivered(st, s, q)
    ensures MacsDelivered(st, Step(s, e, maxSkip), q)
  {
    match e
    case SendEvent(p, payload) =>
      SendAccepts(s, p, payload, q);
      DeliveryStays(st, s, SendStep(s, p, payload), q);
    case DeliverEvent(r, id) =>
      DeliverAccepts(st, s, r, id, maxSkip, q);
    case UnhandledEvent(r, id) =>
      DeliverAccepts(st, s, r, id, maxSkip, q);
      UnhandledAccepts(s, r, id, maxSkip, q);
      DeliveryStays(st, DeliverStep(s, r, id, maxSkip), UnhandledStep(s, r, id, maxSkip), q);
    case InjectEvent(p, msg) =>
      InjectAccepts(s, p, msg, maxSkip, q);
      DeliveryStays(st, s, InjectStep(s, p, msg, maxSkip), q);
  }

  lemma {:induction false} RunKeepsMacs(st: Start, s0: Session, events: seq<Event>, maxSkip: nat, q: Party)
    requires Initial(st, s0) && HonestRun(s0, events, maxSkip)
    ensures MacsDelivered(st, Run(s0, events, maxSkip), q)
  {
    if events != [] {
      var before := events[..|events| - 1];
      RunKeepsMacs(st, s0, before, maxSkip, q);
      HonestRunKeepsInv(st, s0, before, maxSkip);
      StepKeepsMacs(st, Run(s0, before, maxSkip), events[|events| - 1], maxSkip, q);
    }
  }

  /** A MAC key that has been revealed belongs to a message that was delivered. */
  lemma RevealedIsDelivered(st: Start, s: Session, maxSkip: nat, q: Party, k: Term) returns (r: nat, id: nat)
    requires Reachable(st, s, maxSkip) && k in s.MacsOf(q).revealed
    ensures (r, id) in s.delivered && (r, id) in s.log && k == KeysOf(st, r, id).mac
  {
    var s0: Session, events: seq<Event> :|
      Initial(st, s0) && HonestRun(s0, events, maxSkip) && s == Run(s0, events, maxSkip);
    RunKeepsMacs(st, s0, events, maxSkip, q);
    MacKeyConservation(st, s, maxSkip, q);
    assert k in s.MacsOf(q).accepted;
    var x :| x in s.delivered && q == Other(SenderOf(x.0)) && k == KeysOf(st, x.0, x.1).mac;
    r, id := x.0, x.1;
    NeverTwice(st, s, maxSkip, r, id);
  }

  /** What somebody can know of authenticators who has seen all messages and all revealed keys: those of the
      messages, and any made with a revealed key. */
  predicate Known(s: Session, mac: Authenticator) {
    || (exists x :: x in s.log && s.log[x].msg.mac == mac)
    || mac.macKey in s.tMacs.revealed || mac.macKey in s.uMacs.revealed
  }

  /** Revealing MAC keys does no harm: nothing is accepted under them any more, by either side. */
  lemma RevealedKeysOpenNothing(st: Start, s: Session, maxSkip: nat, p: Party, msg: DataMessage)
    requires Reachable(st, s, maxSkip)
    requires msg.mac.macKey in s.tMacs.revealed || msg.mac.macKey in s.uMacs.revealed
    ensures !Receive(s.Of(p), msg, maxSkip).Accepted?
  {
    if Receive(s.Of(p), msg, maxSkip).Accepted? {
      var q := if msg.mac.macKey in s.tMacs.revealed then T else U;
      var r, id := RevealedIsDelivered(st, s, maxSkip, q, msg.mac.macKey);
      AcceptedKeyIsFresh(st, s, maxSkip, p, msg, r, id);
      assert false;
    }
  }

  /** Authenticity: after any honest run, whatever message is put together from what has been seen, with any body
      and delivered to either side, is accepted only if it is, body and all, one the other side has
      sent and this side has neither accepted nor lost; and then it hands on that message's text. */
  lemma OnlyGenuineAccepted(st: Start, s: Session, maxSkip: nat, p: Party, msg: DataMessage) returns (r: nat, id: nat)
    requires Reachable(st, s, maxSkip) && Known(s, msg.mac) && Receive(s.Of(p), msg, maxSkip).Accepted?
    ensures (r, id) in s.log && (r, id) !in s.Gone() && p == Other(SenderOf(r))
    ensures msg.body == s.log[(r, id)].msg.body
    ensures Receive(s.Of(p), msg, maxSkip).payload == s.log[(r, id)].msg.body.payload
  {
    if msg.mac.macKey in s.tMacs.revealed || msg.mac.macKey in s.uMacs.revealed {
      RevealedKeysOpenNothing(st, s, maxSkip, p, msg);
      assert false;
    } else {
      var x :| x in s.log && s.log[x].msg.mac == msg.mac;
      r, id := x.0, x.1;
      SeenIsSent(st, s, maxSkip, r, id);
      AcceptedIsAuthentic(s.Of(p), msg, maxSkip);
      AcceptedKeyIsFresh(st, s, maxSkip, p, msg, r, id);
    }
  }

  lemma SeenIsSent(st: Start, s: Session, maxSkip: nat, r: nat, id: nat)
    requires Reachable(st, s, maxSkip) && (r, id) in s.log
    ensures s.log[(r, id)].msg.mac == Authenticator(KeysOf(st, r, id).mac, s.log[(r, id)].msg.body)
  {
    ReachableInv(st, s, maxSkip);
  }
}
