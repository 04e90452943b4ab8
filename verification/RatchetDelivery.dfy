/** Every delivery of an honest run is accepted with the sender's keys and keeps the invariant. */
module RatchetDelivery {
  import opened Prelude
  import opened Keys
  import opened KeyManager
  import opened RatchetSession
  import opened RatchetProofs
  import opened RatchetReceive

  // ------------------------------------------------------ where a message stands

  /** A sent message lies below the counters, on the current chain, or opens the awaited ratchet. */
  lemma Standing(counts: seq<nat>, n: Counters, p: Party, r: nat, id: nat)
    requires CountersInv(counts, n, p) && id < Count(counts, r) && p == Other(SenderOf(r))
    ensures Passed(counts, n, p, r, id)
         || (r == LastReceived(n.i, p) && n.k <= id)
         || (r == n.i && OwnRatchet(n.i, p))
    ensures r == n.i ==> OwnRatchet(n.i, p) && LastReceived(n.i, p) == r - 2 && n.i + 1 == |counts|
  {
  }

  lemma TheirKeyOfLast(st: Start, i: nat, pairs: KeyPairs, p: Party, r: nat)
    requires StartInv(st) && TheirKeysInv(st, i, pairs, p)
    ensures pairs.theirEcdh == Ratchet(r) <==> LastReceived(i, p) == r
  {
  }

  /** Any message that was sent and neither delivered nor lost, late or not, is accepted with exactly
      the keys its sender used, provided no guard on its own chain keeps it out. */
  lemma DeliveryAccepted(st: Start, s: Session, p: Party, r: nat, id: nat, maxSkip: nat)
    requires StartInv(st) && LogInv(st, s.counts, s.log) && SideInv(st, s, p) && p == Other(SenderOf(r))
    requires (r, id) in s.log && (r, id) !in s.Gone()
    requires CanReach(s.Of(p), s.log[(r, id)].msg.body, maxSkip)
    ensures var sent := s.log[(r, id)];
            var receipt := Receive(s.Of(p), sent.msg, maxSkip);
            && receipt.Accepted? && receipt.keys == sent.keys == KeysOf(st, r, id)
            && receipt.payload == sent.msg.body.payload
  {
    var m, sent := s.Of(p), s.log[(r, id)];
    var want := Missing(s.counts, s.Gone(), m.n, p);
    Standing(s.counts, m.n, p, r, id);
    FoundIffWanted(st, m.skipped, want, r, id);
    TheirKeyOfLast(st, m.n.i, m.pairs, p, r);
    if Passed(s.counts, m.n, p, r, id) {
      var n := ReceiveStored(st, s.counts, m, want, r, id, sent, maxSkip);
    } else if r == LastReceived(m.n.i, p) {
      ReceiveCurrent(st, s.counts, m, r, id, sent, maxSkip);
    } else {
      ReceiveNew(st, s.counts, m, p, r, id, sent, maxSkip);
    }
  }

  // ------------------------------------------------------- keeping the invariant

  lemma MissingAfterStored(counts: seq<nat>, gone: set<(nat, nat)>, n: Counters, p: Party, r: nat, id: nat)
    ensures forall r': nat, id': nat ::
              Missing(counts, gone + {(r, id)}, n, p)(r', id')
              <==> Without(Missing(counts, gone, n, p), r, id)(r', id')
  {
  }

  lemma MissingAfterCurrent(counts: seq<nat>, gone: set<(nat, nat)>, n: Counters, p: Party, r: nat, id: nat)
    requires r == LastReceived(n.i, p) && n.k <= id && p == Other(SenderOf(r))
    requires GoneInv(counts, gone, n, p)
    ensures forall r': nat, id': nat ::
              Missing(counts, gone + {(r, id)}, n.(k := id + 1), p)(r', id')
              <==> AndRange(Missing(counts, gone, n, p), r, n.k, id)(r', id')
    ensures GoneInv(counts, gone + {(r, id)}, n.(k := id + 1), p)
  {
    forall r': nat, id': nat
      ensures Missing(counts, gone + {(r, id)}, n.(k := id + 1), p)(r', id')
          <==> AndRange(Missing(counts, gone, n, p), r, n.k, id)(r', id')
    {
      assert (r', id') in gone && p == Other(SenderOf(r')) ==> Passed(counts, n, p, r', id');
    }
  }

  /** What is missing once ratchet r is entered with message id. */
  ghost function MissingEntered(want: (nat, nat) -> bool, n: Counters, pn: nat, r: nat, id: nat, shut: bool)
    : (nat, nat) -> bool
  {
    var superseded := if r < 2 || shut then want else AndRange(want, r - 2, n.k, pn);
    AndRange(superseded, r, 0, id)
  }

  /** What is gone once ratchet r is entered with message id: the message itself, and the rest of the
      superseded chain if the guard was shut. */
  function GoneEntered(gone: set<(nat, nat)>, n: Counters, pn: nat, r: nat, id: nat, shut: bool): set<(nat, nat)> {
    gone + {(r, id)} + if r >= 2 && shut then Ids(r - 2, n.k, pn) else {}
  }

  lemma MissingAfterNew(counts: seq<nat>, gone: set<(nat, nat)>, n: Counters, p: Party, r: nat, id: nat, shut: bool)
    requires r == n.i && OwnRatchet(r, p) && n.k <= Count(counts, r - 2)
    requires GoneInv(counts, gone, n, p)
    ensures var n', gone' := Counters(r + 1, 0, id + 1, n.j), GoneEntered(gone, n, Count(counts, r - 2), r, id, shut);
            && GoneInv(counts, gone', n', p)
            && forall r': nat, id': nat ::
              Missing(counts, gone', n', p)(r', id')
              <==> MissingEntered(Missing(counts, gone, n, p), n, Count(counts, r - 2), r, id, shut)(r', id')
  {
    var n', gone' := Counters(r + 1, 0, id + 1, n.j), GoneEntered(gone, n, Count(counts, r - 2), r, id, shut);
    assert LastReceived(r, p) == r - 2 && LastReceived(r + 1, p) == r;
    forall r': nat, id': nat
      ensures Missing(counts, gone', n', p)(r', id')
          <==> MissingEntered(Missing(counts, gone, n, p), n, Count(counts, r - 2), r, id, shut)(r', id')
    {
      assert (r', id') in gone && p == Other(SenderOf(r')) ==> Passed(counts, n, p, r', id');
    }
  }

  /** None of these ids of ratchet r is wanted. */
  ghost predicate NoneWanted(want: (nat, nat) -> bool, r: nat, lo: nat, hi: nat) {
    forall id: nat | lo <= id < hi :: !want(r, id)
  }

  lemma StoreAppendTwo(st: Start, store: seq<Skipped>, want: (nat, nat) -> bool, last: nat, k: nat, pn: nat,
                       r: nat, id: nat)
    requires StoreHolds(st, store, want) && k <= pn && last != r
    requires NoneWanted(want, last, k, pn) && NoneWanted(want, r, 0, id)
    ensures StoreHolds(st, store + SkippedRange(st, last, k, pn) + SkippedRange(st, r, 0, id),
                       AndRange(AndRange(want, last, k, pn), r, 0, id))
  {
    StoreAppend(st, store, want, last, k, pn);
    StoreAppend(st, store + SkippedRange(st, last, k, pn), AndRange(want, last, k, pn), r, 0, id);
  }

  lemma StoreEntered(st: Start, m: Manager, want: (nat, nat) -> bool, pn: nat, r: nat, id: nat, maxSkip: nat)
    requires StoreHolds(st, m.skipped, want) && m.n.k <= pn
    requires r >= 2 ==> NoneWanted(want, r - 2, m.n.k, pn)
    requires NoneWanted(want, r, 0, id)
    ensures StoreHolds(st, EnteredStore(st, m, r - 2, pn, r, id, maxSkip),
                       MissingEntered(want, m.n, pn, r, id, GapTooWide(m.n.k, maxSkip, pn)))
  {
    if r < 2 || GapTooWide(m.n.k, maxSkip, pn) {
      StoreAppend(st, m.skipped, want, r, 0, id);
      assert m.skipped + [] == m.skipped;
    } else {
      StoreAppendTwo(st, m.skipped, want, r - 2, m.n.k, pn, r, id);
    }
  }

  lemma EnteredPairs(st: Start, pairs: KeyPairs, p: Party, r: nat)
    requires OwnKeysInv(st, r, pairs, p) && OwnRatchet(r, p)
    ensures var pairs' := KeyPairs(EcPair(Erased, pairs.ourEcdh.pub), EraseDh(r, pairs.ourDh), Ratchet(r), DhOf(st, r));
            OwnKeysInv(st, r + 1, pairs', p) && TheirKeysInv(st, r + 1, pairs', p)
  {
    assert LastReceived(r + 1, p) == r;
  }

  lemma EnteredCounters(counts: seq<nat>, n: Counters, p: Party, r: nat, id: nat)
    requires CountersInv(counts, n, p) && id < Count(counts, r)
    requires r == n.i && OwnRatchet(r, p) && r + 1 == |counts|
    ensures CountersInv(counts, Counters(r + 1, 0, id + 1, n.j), p)
    ensures !OwnRatchet(r + 1, p) && LastReceived(r + 1, p) == r
  {
  }

  lemma EnteredPartyInv(st: Start, counts: seq<nat>, m: Manager, p: Party, r: nat, id: nat, sent: Sent,
                        store: seq<Skipped>)
    requires PartyInv(st, counts, m, p) && SentOf(st, counts, r, id, sent) && id < Count(counts, r)
    requires r == m.n.i && OwnRatchet(r, p) && r + 1 == |counts|
    ensures PartyInv(st, counts,
                     After(m, EcPair(Erased, m.pairs.ourEcdh.pub), EraseDh(r, m.pairs.ourDh), sent,
                           Counters(r + 1, 0, id + 1, m.n.j), RootOf(st, r + 1), ChainAt(ChainOf(st, r), id + 1),
                           Zeros, store), p)
  {
    EnteredPairs(st, m.pairs, p, r);
    EnteredCounters(counts, m.n, p, r, id);
  }

  /** The counters, keys and chains after a message of the ratchet received from last. */
  lemma CurrentPartyInv(st: Start, counts: seq<nat>, m: Manager, p: Party, r: nat, id: nat, sent: Sent,
                        k: nat, store: seq<Skipped>)
    requires PartyInv(st, counts, m, p) && SentOf(st, counts, r, id, sent)
    requires r == LastReceived(m.n.i, p) && k <= Count(counts, r)
    ensures PartyInv(st, counts,
                     After(m, m.pairs.ourEcdh, m.pairs.ourDh, sent, m.n.(k := k), m.chains.rootKey,
                           ChainAt(ChainOf(st, r), k), Zeros, store), p)
  {
    CurrentCounters(counts, m.n, p, r, k);
    CurrentChains(st, m.n, m.chains, p, r, k);
    CurrentKeys(st, counts, m.n.i, m.pairs, p, r, id, sent);
  }

  lemma CurrentCounters(counts: seq<nat>, n: Counters, p: Party, r: nat, k: nat)
    requires CountersInv(counts, n, p) && r == LastReceived(n.i, p) && k <= Count(counts, r)
    ensures CountersInv(counts, n.(k := k), p)
  {
  }

  lemma CurrentChains(st: Start, n: Counters, c: Chains, p: Party, r: nat, k: nat)
    requires ChainsInv(st, n, c, p) && r == LastReceived(n.i, p)
    ensures ChainsInv(st, n.(k := k), c.(chainR := ChainAt(ChainOf(st, r), k)), p)
  {
  }

  lemma CurrentKeys(st: Start, counts: seq<nat>, i: nat, pairs: KeyPairs, p: Party, r: nat, id: nat, sent: Sent)
    requires OwnKeysInv(st, i, pairs, p) && SentOf(st, counts, r, id, sent) && r == LastReceived(i, p)
    ensures var pairs' := pairs.(theirEcdh := sent.msg.body.ecdh, theirDh := sent.msg.body.dh);
            OwnKeysInv(st, i, pairs', p) && TheirKeysInv(st, i, pairs', p)
  {
  }

  /** How a session s' in which p accepted (r, id) relates to s. */
  predicate DeliveredMore(s: Session, s': Session, p: Party, r: nat, id: nat, after: Manager, mac: Term,
                          lost: set<(nat, nat)>)
  {
    && s'.Of(p) == after && s'.Of(Other(p)) == s.Of(Other(p))
    && s'.MacsOf(p) == s.MacsOf(p).(accepted := s.MacsOf(p).accepted + multiset{mac})
    && s'.MacsOf(Other(p)) == s.MacsOf(Other(p))
    && s'.counts == s.counts && s'.log == s.log
    && s'.delivered == s.delivered + {(r, id)} && s'.lost == s.lost + lost
    && s'.uReady == (s.uReady || p == U)
  }

  lemma DeliverStepShape(s: Session, p: Party, r: nat, id: nat, maxSkip: nat)
    requires (r, id) in s.log && p == Other(SenderOf(r))
    requires Receive(s.Of(p), s.log[(r, id)].msg, maxSkip).Accepted?
    ensures var receipt := Receive(s.Of(p), s.log[(r, id)].msg, maxSkip);
            DeliveredMore(s, DeliverStep(s, r, id, maxSkip), p, r, id, receipt.after, receipt.keys.mac,
                          LostBy(s.Of(p), r, s.log[(r, id)].msg.body, maxSkip))
  {
  }

  /** p holds a valid state, and after is what the receiver is left with. */
  ghost predicate KeptBy(st: Start, s: Session, p: Party, r: nat, id: nat, after: Manager, lost: set<(nat, nat)>)
    requires (r, id) in s.log
  {
    && PartyInv(st, s.counts, after, p) && after.n.i > 0
    && StoreInv(st, s.counts, s.Gone() + {(r, id)} + lost, after.n, after.skipped, p)
    && GoneInv(s.counts, s.Gone() + {(r, id)} + lost, after.n, p)
    && after.oldMacKeys == s.Of(p).oldMacKeys + [s.log[(r, id)].keys.mac]
  }

  lemma StoredStoreInv(st: Start, counts: seq<nat>, gone: set<(nat, nat)>, m: Manager, p: Party, n: nat,
                       r: nat, id: nat)
    requires StoreInv(st, counts, gone, m.n, m.skipped, p) && GoneInv(counts, gone, m.n, p)
    requires n < |m.skipped| && Matches(m.skipped[n], Ratchet(r), id) && Passed(counts, m.n, p, r, id)
    ensures StoreInv(st, counts, gone + {(r, id)}, m.n, RemoveAt(m.skipped, n), p)
    ensures GoneInv(counts, gone + {(r, id)}, m.n, p)
  {
    var want := Missing(counts, gone, m.n, p);
    StoreRemove(st, m.skipped, want, n, r, id);
    MissingAfterStored(counts, gone, m.n, p, r, id);
    SameStore(st, RemoveAt(m.skipped, n), Without(want, r, id), Missing(counts, gone + {(r, id)}, m.n, p));
  }

  lemma StoredKeeps(st: Start, s: Session, p: Party, r: nat, id: nat, maxSkip: nat) returns (after: Manager)
    requires LogInv(st, s.counts, s.log) && SideInv(st, s, p) && (r, id) in s.log && (r, id) !in s.Gone()
    requires Passed(s.counts, s.Of(p).n, p, r, id) && r == LastReceived(s.Of(p).n.i, p)
    ensures var sent := s.log[(r, id)];
            Receive(s.Of(p), sent.msg, maxSkip) == Accepted(after, sent.msg.body.payload, sent.keys)
    ensures KeptBy(st, s, p, r, id, after, LostBy(s.Of(p), r, s.log[(r, id)].msg.body, maxSkip))
  {
    var m, sent := s.Of(p), s.log[(r, id)];
    var n := ReceiveStored(st, s.counts, m, Missing(s.counts, s.Gone(), m.n, p), r, id, sent, maxSkip);
    after := Receive(m, sent.msg, maxSkip).after;
    CurrentPartyInv(st, s.counts, m, p, r, id, sent, m.n.k, RemoveAt(m.skipped, n));
    StoredStoreInv(st, s.counts, s.Gone(), m, p, n, r, id);
    FoundIffWanted(st, m.skipped, Missing(s.counts, s.Gone(), m.n, p), r, id);
    assert s.Gone() + {(r, id)} + {} == s.Gone() + {(r, id)};
  }

  lemma CurrentStoreInv(st: Start, counts: seq<nat>, gone: set<(nat, nat)>, m: Manager, p: Party, r: nat, id: nat)
    requires StoreInv(st, counts, gone, m.n, m.skipped, p) && GoneInv(counts, gone, m.n, p)
    requires r == LastReceived(m.n.i, p) && m.n.k <= id && p == Other(SenderOf(r))
    ensures var n' := m.n.(k := id + 1);
            && StoreInv(st, counts, gone + {(r, id)}, n', m.skipped + SkippedRange(st, r, m.n.k, id), p)
            && GoneInv(counts, gone + {(r, id)}, n', p)
  {
    var want := Missing(counts, gone, m.n, p);
    StoreAppend(st, m.skipped, want, r, m.n.k, id);
    MissingAfterCurrent(counts, gone, m.n, p, r, id);
    SameStore(st, m.skipped + SkippedRange(st, r, m.n.k, id), AndRange(want, r, m.n.k, id),
              Missing(counts, gone + {(r, id)}, m.n.(k := id + 1), p));
  }

  lemma CurrentKeeps(st: Start, s: Session, p: Party, r: nat, id: nat, maxSkip: nat) returns (after: Manager)
    requires LogInv(st, s.counts, s.log) && SideInv(st, s, p) && (r, id) in s.log
    requires r == LastReceived(s.Of(p).n.i, p) && s.Of(p).n.k <= id && p == Other(SenderOf(r))
    requires s.Of(p).pairs.theirEcdh == Ratchet(r) && FindSkipped(s.Of(p).skipped, Ratchet(r), id).None?
    requires id == s.Of(p).n.k || !GapTooWide(s.Of(p).n.k, maxSkip, id)
    ensures var sent := s.log[(r, id)];
            Receive(s.Of(p), sent.msg, maxSkip) == Accepted(after, sent.msg.body.payload, sent.keys)
    ensures KeptBy(st, s, p, r, id, after, LostBy(s.Of(p), r, s.log[(r, id)].msg.body, maxSkip))
  {
    var m, sent := s.Of(p), s.log[(r, id)];
    ReceiveCurrent(st, s.counts, m, r, id, sent, maxSkip);
    after := Receive(m, sent.msg, maxSkip).after;
    CurrentPartyInv(st, s.counts, m, p, r, id, sent, id + 1, after.skipped);
    CurrentStoreInv(st, s.counts, s.Gone(), m, p, r, id);
    assert s.Gone() + {(r, id)} + {} == s.Gone() + {(r, id)};
  }

  lemma EnteredStoreInv(st: Start, counts: seq<nat>, gone: set<(nat, nat)>, m: Manager, p: Party, r: nat, id: nat,
                        maxSkip: nat)
    requires StoreInv(st, counts, gone, m.n, m.skipped, p) && GoneInv(counts, gone, m.n, p)
    requires r == m.n.i && OwnRatchet(r, p) && m.n.k <= Count(counts, r - 2)
    ensures var n', pn := Counters(r + 1, 0, id + 1, m.n.j), Count(counts, r - 2);
            var gone' := GoneEntered(gone, m.n, pn, r, id, GapTooWide(m.n.k, maxSkip, pn));
            && StoreInv(st, counts, gone', n', EnteredStore(st, m, r - 2, pn, r, id, maxSkip), p)
            && GoneInv(counts, gone', n', p)
  {
    var want, pn := Missing(counts, gone, m.n, p), Count(counts, r - 2);
    var shut := GapTooWide(m.n.k, maxSkip, pn);
    StoreEntered(st, m, want, pn, r, id, maxSkip);
    MissingAfterNew(counts, gone, m.n, p, r, id, shut);
    SameStore(st, EnteredStore(st, m, r - 2, pn, r, id, maxSkip), MissingEntered(want, m.n, pn, r, id, shut),
              Missing(counts, GoneEntered(gone, m.n, pn, r, id, shut), Counters(r + 1, 0, id + 1, m.n.j), p));
  }

  lemma LostByNew(st: Start, counts: seq<nat>, m: Manager, p: Party, r: nat, id: nat, b: Body, maxSkip: nat,
                  gone: set<(nat, nat)>)
    requires BodyOf(st, counts, r, id, b) && Awaits(st, counts, m, p, r, id, maxSkip)
    ensures var pn := Count(counts, r - 2);
            gone + {(r, id)} + LostBy(m, r, b, maxSkip)
            == GoneEntered(gone, m.n, pn, r, id, GapTooWide(m.n.k, maxSkip, pn))
  {
  }

  lemma NewKeeps(st: Start, s: Session, p: Party, r: nat, id: nat, maxSkip: nat) returns (after: Manager)
    requires LogInv(st, s.counts, s.log) && SideInv(st, s, p) && (r, id) in s.log
    requires Awaits(st, s.counts, s.Of(p), p, r, id, maxSkip) && r + 1 == |s.counts|
    ensures var sent := s.log[(r, id)];
            Receive(s.Of(p), sent.msg, maxSkip) == Accepted(after, sent.msg.body.payload, sent.keys)
    ensures KeptBy(st, s, p, r, id, after, LostBy(s.Of(p), r, s.log[(r, id)].msg.body, maxSkip))
  {
    after := NewAfter(st, s.counts, s.Gone(), s.Of(p), p, r, id, s.log[(r, id)], maxSkip);
    LostByNew(st, s.counts, s.Of(p), p, r, id, s.log[(r, id)].msg.body, maxSkip, s.Gone());
  }

  /** The receiver's state after the first message of a new ratchet. */
  lemma NewAfter(st: Start, counts: seq<nat>, gone: set<(nat, nat)>, m: Manager, p: Party, r: nat, id: nat, sent: Sent,
                 maxSkip: nat)
    returns (after: Manager)
    requires PartyInv(st, counts, m, p) && SentOf(st, counts, r, id, sent) && id < Count(counts, r)
    requires StoreInv(st, counts, gone, m.n, m.skipped, p) && GoneInv(counts, gone, m.n, p)
    requires Awaits(st, counts, m, p, r, id, maxSkip) && r + 1 == |counts|
    ensures Receive(m, sent.msg, maxSkip) == Accepted(after, sent.msg.body.payload, sent.keys)
    ensures var pn := Count(counts, r - 2);
            var gone' := GoneEntered(gone, m.n, pn, r, id, GapTooWide(m.n.k, maxSkip, pn));
            && PartyInv(st, counts, after, p) && after.n.i > 0
            && StoreInv(st, counts, gone', after.n, after.skipped, p) && GoneInv(counts, gone', after.n, p)
            && after.oldMacKeys == m.oldMacKeys + [sent.keys.mac]
  {
    ReceiveNew(st, counts, m, p, r, id, sent, maxSkip);
    after := Receive(m, sent.msg, maxSkip).after;
    EnteredPartyInv(st, counts, m, p, r, id, sent, after.skipped);
    EnteredStoreInv(st, counts, gone, m, p, r, id, maxSkip);
  }

  /** What an honest delivery of (r, id) finds at its receiver, in the order of the lookups. */
  predicate Lookup(m: Manager, counts: seq<nat>, b: Body, p: Party, r: nat, id: nat, maxSkip: nat) {
    && b.ecdh == Ratchet(r) && b.id == id && b.pn == Count(counts, r - 2)
    && (FindSkipped(m.skipped, Ratchet(r), id).Some? <==> Passed(counts, m.n, p, r, id))
    && (m.pairs.theirEcdh == Ratchet(r) <==> LastReceived(m.n.i, p) == r)
    && CanReach(m, b, maxSkip) && !LateForSuperseded(m, b)
  }

  lemma LookupOf(st: Start, s: Session, p: Party, r: nat, id: nat, maxSkip: nat)
    requires StartInv(st) && LogInv(st, s.counts, s.log) && SideInv(st, s, p) && p == Other(SenderOf(r))
    requires HonestEvent(s, DeliverEvent(r, id), maxSkip)
    ensures Lookup(s.Of(p), s.counts, s.log[(r, id)].msg.body, p, r, id, maxSkip)
  {
    var m := s.Of(p);
    FoundIffWanted(st, m.skipped, Missing(s.counts, s.Gone(), m.n, p), r, id);
    TheirKeyOfLast(st, m.n.i, m.pairs, p, r);
  }

  lemma AwaitsNew(st: Start, counts: seq<nat>, m: Manager, b: Body, p: Party, r: nat, id: nat, maxSkip: nat)
    requires StartInv(st) && PartyInv(st, counts, m, p) && Lookup(m, counts, b, p, r, id, maxSkip)
    requires r == m.n.i && OwnRatchet(r, p) && LastReceived(r, p) == r - 2 && r + 1 == |counts|
    ensures Awaits(st, counts, m, p, r, id, maxSkip)
  {
  }

  /** The three ways an honest delivery can go. */
  lemma WhichWay(st: Start, s: Session, p: Party, r: nat, id: nat, maxSkip: nat)
    requires StartInv(st) && LogInv(st, s.counts, s.log) && SideInv(st, s, p) && p == Other(SenderOf(r))
    requires HonestEvent(s, DeliverEvent(r, id), maxSkip)
    ensures var m := s.Of(p);
            || (Passed(s.counts, m.n, p, r, id) && r == LastReceived(m.n.i, p))
            || (r == LastReceived(m.n.i, p) && m.n.k <= id && m.pairs.theirEcdh == Ratchet(r)
                && FindSkipped(m.skipped, Ratchet(r), id).None? && (id == m.n.k || !GapTooWide(m.n.k, maxSkip, id)))
            || (Awaits(st, s.counts, m, p, r, id, maxSkip) && r + 1 == |s.counts|)
  {
    var m := s.Of(p);
    LookupOf(st, s, p, r, id, maxSkip);
    WayOf(st, s.counts, m, s.log[(r, id)].msg.body, p, r, id, maxSkip);
  }

  lemma WayOf(st: Start, counts: seq<nat>, m: Manager, b: Body, p: Party, r: nat, id: nat, maxSkip: nat)
    requires StartInv(st) && PartyInv(st, counts, m, p) && Lookup(m, counts, b, p, r, id, maxSkip)
    requires id < Count(counts, r) && p == Other(SenderOf(r))
    ensures || (Passed(counts, m.n, p, r, id) && r == LastReceived(m.n.i, p))
            || (r == LastReceived(m.n.i, p) && m.n.k <= id && m.pairs.theirEcdh == Ratchet(r)
                && FindSkipped(m.skipped, Ratchet(r), id).None? && (id == m.n.k || !GapTooWide(m.n.k, maxSkip, id)))
            || (Awaits(st, counts, m, p, r, id, maxSkip) && r + 1 == |counts|)
  {
    Standing(counts, m.n, p, r, id);
    if !Passed(counts, m.n, p, r, id) && r != LastReceived(m.n.i, p) {
      AwaitsNew(st, counts, m, b, p, r, id, maxSkip);
    }
  }

  /** The receiver's side of the invariant after an accepted message. */
  lemma DeliveryKeepsReceiver(st: Start, s: Session, p: Party, r: nat, id: nat, maxSkip: nat) returns (after: Manager)
    requires StartInv(st) && LogInv(st, s.counts, s.log) && SideInv(st, s, p) && p == Other(SenderOf(r))
    requires HonestEvent(s, DeliverEvent(r, id), maxSkip)
    ensures var sent := s.log[(r, id)];
            Receive(s.Of(p), sent.msg, maxSkip) == Accepted(after, sent.msg.body.payload, sent.keys)
    ensures KeptBy(st, s, p, r, id, after, LostBy(s.Of(p), r, s.log[(r, id)].msg.body, maxSkip))
  {
    var m := s.Of(p);
    WhichWay(st, s, p, r, id, maxSkip);
    if Passed(s.counts, m.n, p, r, id) {
      after := StoredKeeps(st, s, p, r, id, maxSkip);
    } else if r == LastReceived(m.n.i, p) {
      after := CurrentKeeps(st, s, p, r, id, maxSkip);
    } else {
      after := NewKeeps(st, s, p, r, id, maxSkip);
    }
  }
}
