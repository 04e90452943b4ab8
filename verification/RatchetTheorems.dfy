/** What every honest run of the double ratchet guarantees, and what breaks it. */
module RatchetTheorems {
  import opened Prelude
  import opened Keys
  import opened KeyManager
  import opened RatchetSession
  import opened RatchetProofs
  import opened RatchetReceive
  import opened RatchetDelivery

  // ------------------------------------------------------------ the invariant

  lemma DeliveredReceiver(st: Start, s: Session, s': Session, p: Party, r: nat, id: nat, after: Manager,
                          lost: set<(nat, nat)>)
    requires (r, id) in s.log && SideInv(st, s, p) && KeptBy(st, s, p, r, id, after, lost)
    requires DeliveredMore(s, s', p, r, id, after, s.log[(r, id)].keys.mac, lost)
    ensures SideInv(st, s', p)
  {
    assert s'.Gone() == s.Gone() + {(r, id)} + lost;
    assert MacsInv(s'.Of(p), s'.MacsOf(p));
  }

  /** What is delivered or lost on the other direction is none of this side's. */
  lemma ForeignGone(st: Start, counts: seq<nat>, gone: set<(nat, nat)>, more: set<(nat, nat)>, n: Counters,
                    store: seq<Skipped>, q: Party)
    requires StoreInv(st, counts, gone, n, store, q) && GoneInv(counts, gone, n, q)
    requires forall l | l in more :: SenderOf(l.0) == q
    ensures StoreInv(st, counts, gone + more, n, store, q) && GoneInv(counts, gone + more, n, q)
  {
    SameStore(st, store, Missing(counts, gone, n, q), Missing(counts, gone + more, n, q));
  }

  lemma DeliveredOther(st: Start, s: Session, s': Session, p: Party, r: nat, id: nat, after: Manager, mac: Term,
                       lost: set<(nat, nat)>)
    requires SideInv(st, s, Other(p)) && p == Other(SenderOf(r)) && DeliveredMore(s, s', p, r, id, after, mac, lost)
    requires forall l | l in lost :: p == Other(SenderOf(l.0))
    ensures SideInv(st, s', Other(p))
  {
    var q := Other(p);
    ForeignGone(st, s.counts, s.Gone(), {(r, id)} + lost, s.Of(q).n, s.Of(q).skipped, q);
    assert s'.Gone() == s.Gone() + ({(r, id)} + lost);
  }

  lemma LostSender(m: Manager, r: nat, b: Body, maxSkip: nat)
    ensures forall l | l in LostBy(m, r, b, maxSkip) :: SenderOf(l.0) == SenderOf(r)
  {
  }

  lemma DeliverKeepsSides(st: Start, s: Session, r: nat, id: nat, maxSkip: nat) returns (after: Manager)
    requires Inv(st, s) && HonestEvent(s, DeliverEvent(r, id), maxSkip)
    ensures var s', p := DeliverStep(s, r, id, maxSkip), Other(SenderOf(r));
            && SideInv(st, s', p) && SideInv(st, s', Other(p)) && after.n.i > 0
            && DeliveredMore(s, s', p, r, id, after, s.log[(r, id)].keys.mac,
                             LostBy(s.Of(p), r, s.log[(r, id)].msg.body, maxSkip))
  {
    var p := Other(SenderOf(r));
    var s' := DeliverStep(s, r, id, maxSkip);
    assert SideInv(st, s, p) && SideInv(st, s, Other(p));
    after := DeliveryKeepsReceiver(st, s, p, r, id, maxSkip);
    DeliverStepShape(s, p, r, id, maxSkip);
    var lost := LostBy(s.Of(p), r, s.log[(r, id)].msg.body, maxSkip);
    LostSender(s.Of(p), r, s.log[(r, id)].msg.body, maxSkip);
    DeliveredReceiver(st, s, s', p, r, id, after, lost);
    DeliveredOther(st, s, s', p, r, id, after, s.log[(r, id)].keys.mac, lost);
  }

  lemma DeliverKeepsInv(st: Start, s: Session, r: nat, id: nat, maxSkip: nat)
    requires Inv(st, s) && HonestEvent(s, DeliverEvent(r, id), maxSkip)
    ensures Inv(st, DeliverStep(s, r, id, maxSkip))
  {
    var after := DeliverKeepsSides(st, s, r, id, maxSkip);
    SidesMakeInv(st, s, DeliverStep(s, r, id, maxSkip), Other(SenderOf(r)), after.n);
  }

  lemma SidesMakeInv(st: Start, s: Session, s': Session, p: Party, n: Counters)
    requires Inv(st, s) && SideInv(st, s', p) && SideInv(st, s', Other(p))
    requires s'.counts == s.counts && s'.log == s.log && s'.Of(p).n == n && n.i > 0
    requires s'.Of(Other(p)) == s.Of(Other(p)) && s'.uReady == (s.uReady || p == U)
    ensures Inv(st, s')
  {
  }

  /** The outcome is not defined exactly when the message would start a ratchet with a new exchange and
      the own private half is gone. */
  lemma UndefinedIff(m: Manager, msg: DataMessage, maxSkip: nat)
    ensures Receive(m, msg, maxSkip).Undefined? <==> NeedsErased(m, msg.body)
  {
  }

  /** A rejected message changes at most the store, and the own DH private half exactly when it is
      taken for the start of a ratchet with a new exchange. */
  lemma RejectedState(m: Manager, msg: DataMessage, maxSkip: nat)
    requires Receive(m, msg, maxSkip).Rejected?
    ensures var after := Receive(m, msg, maxSkip).after;
            && after == m.(skipped := after.skipped,
                           pairs := m.pairs.(ourDh := m.pairs.ourDh.(priv := after.pairs.ourDh.priv)))
            && after.pairs.ourDh.priv == (if Erases(m, msg.body) then None else m.pairs.ourDh.priv)
            && (m.skipped == [] ==> after.skipped == [])
    ensures Receive(m, msg, maxSkip).freed <==> m.skipped != []
  {
  }

  lemma ErasedKeys(st: Start, i: nat, pairs: KeyPairs, p: Party)
    requires OwnKeysInv(st, i, pairs, p) && !(OwnRatchet(i, p) && i % 3 == 0)
    ensures i % 3 == 0 ==> OwnKeysInv(st, i, pairs.(ourDh := pairs.ourDh.(priv := None)), p)
  {
  }

  /** A message that is rejected without harm leaves at most a private half erased that would have been
      replaced before its next use. */
  lemma InjectedSide(st: Start, counts: seq<nat>, m: Manager, p: Party, msg: DataMessage, maxSkip: nat)
    returns (after: Manager)
    requires PartyInv(st, counts, m, p) && Receive(m, msg, maxSkip).Rejected? && Harmless(m, p, msg.body)
    ensures after == Receive(m, msg, maxSkip).after && PartyInv(st, counts, after, p)
    ensures after.n == m.n && after.skipped == m.skipped && after.oldMacKeys == m.oldMacKeys
  {
    RejectedState(m, msg, maxSkip);
    if Erases(m, msg.body) {
      ErasedKeys(st, m.n.i, m.pairs, p);
    }
    after := Receive(m, msg, maxSkip).after;
  }

  lemma ReplacedOwn(st: Start, s: Session, p: Party, after: Manager)
    requires SideInv(st, s, p) && PartyInv(st, s.counts, after, p)
    requires after.n == s.Of(p).n && after.skipped == s.Of(p).skipped && after.oldMacKeys == s.Of(p).oldMacKeys
    ensures SideInv(st, s.With(p, after, s.MacsOf(p)), p)
  {
    assert s.With(p, after, s.MacsOf(p)).Gone() == s.Gone();
  }

  lemma ReplacedOther(st: Start, s: Session, p: Party, after: Manager)
    requires SideInv(st, s, Other(p))
    ensures SideInv(st, s.With(p, after, s.MacsOf(p)), Other(p))
  {
    assert s.With(p, after, s.MacsOf(p)).Gone() == s.Gone();
  }

  /** Replacing one side's key manager by one that keeps that side's part keeps the rest. */
  lemma SideReplaced(st: Start, s: Session, s': Session, p: Party)
    requires Inv(st, s) && SideInv(st, s', p) && SideInv(st, s', Other(p))
    requires s'.counts == s.counts && s'.log == s.log && s'.uReady == s.uReady && s'.u.n.i == s.u.n.i
    ensures Inv(st, s')
  {
  }

  lemma ReplacedKeepsInv(st: Start, s: Session, p: Party, after: Manager)
    requires Inv(st, s) && PartyInv(st, s.counts, after, p)
    requires after.n == s.Of(p).n && after.skipped == s.Of(p).skipped && after.oldMacKeys == s.Of(p).oldMacKeys
    ensures Inv(st, s.With(p, after, s.MacsOf(p)))
  {
    assert SideInv(st, s, p) && SideInv(st, s, Other(p));
    ReplacedOwn(st, s, p, after);
    ReplacedOther(st, s, p, after);
    SideReplaced(st, s, s.With(p, after, s.MacsOf(p)), p);
  }

  lemma InjectIs(st: Start, s: Session, p: Party, msg: DataMessage, maxSkip: nat) returns (after: Manager)
    requires Inv(st, s) && HonestEvent(s, InjectEvent(p, msg), maxSkip)
    ensures InjectStep(s, p, msg, maxSkip) == s.With(p, after, s.MacsOf(p)) && PartyInv(st, s.counts, after, p)
    ensures after.n == s.Of(p).n && after.skipped == s.Of(p).skipped && after.oldMacKeys == s.Of(p).oldMacKeys
  {
    assert SideInv(st, s, p);
    after := InjectedSide(st, s.counts, s.Of(p), p, msg, maxSkip);
  }

  lemma InjectKeepsInv(st: Start, s: Session, p: Party, msg: DataMessage, maxSkip: nat)
    requires Inv(st, s) && HonestEvent(s, InjectEvent(p, msg), maxSkip)
    ensures Inv(st, InjectStep(s, p, msg, maxSkip))
  {
    var after := InjectIs(st, s, p, msg, maxSkip);
    ReplacedKeepsInv(st, s, p, after);
  }

  lemma UnstoredKeepsSide(st: Start, s: Session, s1: Session, p: Party, mac: Term)
    requires SideInv(st, s, p) && SideInv(st, s1, p) && s1.Of(p).oldMacKeys == s.Of(p).oldMacKeys + [mac]
    ensures SideInv(st, Unstored(s, s1, p, mac), p)
  {
    var s2 := Unstored(s, s1, p, mac);
    assert s2.Gone() == s1.Gone();
    assert MacsInv(s2.Of(p), s2.MacsOf(p));
  }

  lemma UnstoredKeepsOther(st: Start, s: Session, s1: Session, p: Party, mac: Term)
    requires SideInv(st, s1, Other(p))
    ensures SideInv(st, Unstored(s, s1, p, mac), Other(p))
  {
    assert Unstored(s, s1, p, mac).Gone() == s1.Gone();
  }

  /** A delivery whose TLVs could not be handled keeps the invariant too. */
  lemma UnhandledKeepsInv(st: Start, s: Session, r: nat, id: nat, maxSkip: nat)
    requires Inv(st, s) && HonestEvent(s, UnhandledEvent(r, id), maxSkip)
    ensures Inv(st, UnhandledStep(s, r, id, maxSkip))
  {
    var p, s1, mac := Other(SenderOf(r)), DeliverStep(s, r, id, maxSkip), s.log[(r, id)].keys.mac;
    var after := DeliverKeepsSides(st, s, r, id, maxSkip);
    DeliverKeepsInv(st, s, r, id, maxSkip);
    AcceptedMac(st, s, r, id, maxSkip);
    assert SideInv(st, s, p);
    UnstoredKeepsSide(st, s, s1, p, mac);
    UnstoredKeepsOther(st, s, s1, p, mac);
    UnstoredInv(st, s, s1, p, mac);
  }

  lemma UnstoredInv(st: Start, s: Session, s1: Session, p: Party, mac: Term)
    requires Inv(st, s) && Inv(st, s1) && (s.uReady ==> s1.u.n.i > 0)
    requires SideInv(st, Unstored(s, s1, p, mac), p) && SideInv(st, Unstored(s, s1, p, mac), Other(p))
    ensures Inv(st, Unstored(s, s1, p, mac))
  {
  }

  lemma AcceptedMac(st: Start, s: Session, r: nat, id: nat, maxSkip: nat)
    requires Inv(st, s) && HonestEvent(s, DeliverEvent(r, id), maxSkip)
    ensures var p := Other(SenderOf(r)); var receipt := Receive(s.Of(p), s.log[(r, id)].msg, maxSkip);
            && receipt.Accepted? && receipt.keys == s.log[(r, id)].keys
            && receipt.after.oldMacKeys == s.Of(p).oldMacKeys + [receipt.keys.mac]
  {
    assert SideInv(st, s, Other(SenderOf(r)));
    DeliveryAccepted(st, s, Other(SenderOf(r)), r, id, maxSkip);
  }

  lemma StepKeepsInv(st: Start, s: Session, e: Event, maxSkip: nat)
    requires Inv(st, s) && HonestEvent(s, e, maxSkip)
    ensures Inv(st, Step(s, e, maxSkip))
  {
    match e
    case SendEvent(p, payload) => SendKeepsInv(st, s, p, payload);
    case DeliverEvent(r, id) => DeliverKeepsInv(st, s, r, id, maxSkip);
    case UnhandledEvent(r, id) => UnhandledKeepsInv(st, s, r, id, maxSkip);
    case InjectEvent(p, msg) => InjectKeepsInv(st, s, p, msg, maxSkip);
  }

  /** Every honest run keeps the invariant. */
  lemma {:induction false} HonestRunKeepsInv(st: Start, s: Session, events: seq<Event>, maxSkip: nat)
    requires Initial(st, s) && HonestRun(s, events, maxSkip)
    ensures Inv(st, Run(s, events, maxSkip))
  {
    if events == [] {
      InitialInv(st, s);
    } else {
      var before := events[..|events| - 1];
      HonestRunKeepsInv(st, s, before, maxSkip);
      StepKeepsInv(st, Run(s, before, maxSkip), events[|events| - 1], maxSkip);
    }
  }

  lemma ReachableInv(st: Start, s: Session, maxSkip: nat)
    requires Reachable(st, s, maxSkip)
    ensures Inv(st, s)
  {
    var s0: Session, events: seq<Event> :|
      Initial(st, s0) && HonestRun(s0, events, maxSkip) && s == Run(s0, events, maxSkip);
    HonestRunKeepsInv(st, s0, events, maxSkip);
  }

  // ------------------------------------------------------------- main results

  /** Agreement: after any honest run, every message that was sent and neither delivered nor lost,
      early or late, in order or not, is accepted by the other side with exactly the
      encryption, MAC and extra keys its sender derived, as long as no guard on its own chain
      keeps it out. */
  lemma RatchetAgreement(st: Start, s: Session, maxSkip: nat, r: nat, id: nat)
    requires Reachable(st, s, maxSkip) && (r, id) in s.log && (r, id) !in s.Gone()
    requires CanReach(s.Of(Other(SenderOf(r))), s.log[(r, id)].msg.body, maxSkip)
    ensures var receipt := Receive(s.Of(Other(SenderOf(r))), s.log[(r, id)].msg, maxSkip);
            && receipt.Accepted? && receipt.keys == s.log[(r, id)].keys
            && receipt.payload == s.log[(r, id)].msg.body.payload
  {
    ReachableInv(st, s, maxSkip);
    assert SideInv(st, s, Other(SenderOf(r)));
    DeliveryAccepted(st, s, Other(SenderOf(r)), r, id, maxSkip);
  }

  lemma CountersInStep(counts: seq<nat>, n: Counters, n': Counters, p: Party)
    requires CountersInv(counts, n, p) && CountersInv(counts, n', Other(p))
    requires forall r | 0 <= r < |counts| :: counts[r] >= 1
    ensures n.i <= n'.i + 1
    ensures n.j == 0 && (p == T || n.i > 0) ==> n.i == n'.i && n.i % 2 == Parity(p)
    ensures n.i + 1 == n'.i ==> n'.j > 0 && OwnRatchet(n.i, p) && OwnRatchet(n'.i, Other(p))
  {
  }

  predicate InLockstep(m: Manager, other: Manager, p: Party, maySend: bool) {
    && m.n.i <= other.n.i + 1
    && (m.n.i == other.n.i ==> m.chains.rootKey == other.chains.rootKey)
    && (m.n.j == 0 && maySend ==> m.n.i == other.n.i && m.n.i % 2 == Parity(p))
    && (m.n.i + 1 == other.n.i ==> other.n.j > 0)
    && (m.n.i + 1 == other.n.i && m.n.i % 3 == 0 ==>
          m.pairs.ourDh == DhPair(Some(other.pairs.theirDh), other.pairs.theirDh))
  }

  lemma NextIsTheirs(i: nat, next: nat, p: Party)
    requires OwnRatchet(i, p) && next == i + 1
    ensures LastReceived(next, Other(p)) == i - 1
  {
  }

  lemma OwnHalf(st: Start, i: nat, pairs: KeyPairs, p: Party)
    requires OwnKeysInv(st, i, pairs, p) && OwnRatchet(i, p) && i % 3 == 0
    ensures pairs.ourDh == DhPair(Some(DhOf(st, i - 1)), DhOf(st, i - 1))
  {
  }

  /** The half that the receiver of a new exchange holds is the one the sender used. */
  lemma HalfHeld(st: Start, i: nat, own: KeyPairs, next: nat, other: KeyPairs, p: Party)
    requires OwnKeysInv(st, i, own, p) && TheirKeysInv(st, next, other, Other(p))
    requires next == i + 1 && OwnRatchet(i, p) && i % 3 == 0
    ensures own.ourDh == DhPair(Some(other.theirDh), other.theirDh)
  {
    NextIsTheirs(i, next, p);
    OwnHalf(st, i, own, p);
  }

  lemma SidesInLockstep(st: Start, counts: seq<nat>, m: Manager, other: Manager, p: Party, maySend: bool)
    requires PartyInv(st, counts, m, p) && PartyInv(st, counts, other, Other(p))
    requires forall r | 0 <= r < |counts| :: counts[r] >= 1
    requires maySend ==> p == T || m.n.i > 0
    ensures InLockstep(m, other, p, maySend)
  {
    CountersInStep(counts, m.n, other.n, p);
    if m.n.i + 1 == other.n.i && m.n.i % 3 == 0 {
      HalfHeld(st, m.n.i, m.pairs, other.n.i, other.pairs, p);
    }
  }

  lemma PartyOf(st: Start, s: Session, maxSkip: nat, p: Party)
    requires Reachable(st, s, maxSkip)
    ensures PartyInv(st, s.counts, s.Of(p), p) && forall r | 0 <= r < |s.counts| :: s.counts[r] >= 1
    ensures StartInv(st)
    ensures s.MaySend(p) ==> p == T || s.Of(p).n.i > 0
  {
    ReachableInv(st, s, maxSkip);
    assert SideInv(st, s, p);
  }

  /** Lockstep: the ratchet ids differ by at most one, equal ids mean equal root keys, a side
      that may open a ratchet has id equal to the other's, and when a ratchet with a new
      3072-bit exchange is under way its receiver still holds the private half of the public
      key the sender used. */
  lemma Lockstep(st: Start, s: Session, maxSkip: nat, p: Party)
    requires Reachable(st, s, maxSkip)
    ensures InLockstep(s.Of(p), s.Of(Other(p)), p, s.MaySend(p))
  {
    PartyOf(st, s, maxSkip, p);
    PartyOf(st, s, maxSkip, Other(p));
    SidesInLockstep(st, s.counts, s.Of(p), s.Of(Other(p)), p, s.MaySend(p));
  }

  lemma StoredAreSent(st: Start, s: Session, p: Party, e: Skipped)
    requires LogInv(st, s.counts, s.log) && SideInv(st, s, p) && e in s.Of(p).skipped
    ensures e.theirEcdh.Ratchet? && (e.theirEcdh.r, e.k) in s.log && (e.theirEcdh.r, e.k) !in s.Gone()
    ensures var keys := s.log[(e.theirEcdh.r, e.k)].keys; e == Skipped(e.theirEcdh, e.k, keys.extra, keys.enc)
  {
    assert Passed(s.counts, s.Of(p).n, p, e.theirEcdh.r, e.k);
  }

  /** Exactness of the store: one entry for each message passed over and neither delivered nor lost, with
      the sender's keys, no entry twice, and nothing else. */
  lemma StoreExactness(st: Start, s: Session, maxSkip: nat, p: Party)
    requires Reachable(st, s, maxSkip)
    ensures forall a, b | 0 <= a < b < |s.Of(p).skipped| ::
              !Matches(s.Of(p).skipped[b], s.Of(p).skipped[a].theirEcdh, s.Of(p).skipped[a].k)
    ensures forall e | e in s.Of(p).skipped ::
              && e.theirEcdh.Ratchet? && (e.theirEcdh.r, e.k) in s.log && (e.theirEcdh.r, e.k) !in s.Gone()
              && var keys := s.log[(e.theirEcdh.r, e.k)].keys; e == Skipped(e.theirEcdh, e.k, keys.extra, keys.enc)
    ensures forall r: nat, id: nat | (r, id) in s.log && p == Other(SenderOf(r)) ::
              FindSkipped(s.Of(p).skipped, Ratchet(r), id).Some?
              <==> Passed(s.counts, s.Of(p).n, p, r, id) && (r, id) !in s.Gone()
  {
    ReachableInv(st, s, maxSkip);
    var m := s.Of(p);
    assert SideInv(st, s, p);
    forall e | e in m.skipped
      ensures e.theirEcdh.Ratchet? && (e.theirEcdh.r, e.k) in s.log && (e.theirEcdh.r, e.k) !in s.Gone()
      ensures var keys := s.log[(e.theirEcdh.r, e.k)].keys; e == Skipped(e.theirEcdh, e.k, keys.extra, keys.enc)
    {
      StoredAreSent(st, s, p, e);
    }
    StoreKeysDistinct(st, m.skipped, Missing(s.counts, s.Gone(), m.n, p));
    forall r: nat, id: nat
      ensures FindSkipped(m.skipped, Ratchet(r), id).Some?
          <==> Passed(s.counts, m.n, p, r, id) && (r, id) !in s.Gone()
    {
      FoundIffWanted(st, m.skipped, Missing(s.counts, s.Gone(), m.n, p), r, id);
    }
  }

  lemma StoreKeysDistinct(st: Start, store: seq<Skipped>, want: (nat, nat) -> bool)
    requires StoreHolds(st, store, want)
    ensures forall a, b | 0 <= a < b < |store| :: !Matches(store[b], store[a].theirEcdh, store[a].k)
  {
    forall a, b | 0 <= a < b < |store|
      ensures !Matches(store[b], store[a].theirEcdh, store[a].k)
    {
      assert store[a] in store && store[b] in store;
    }
  }

  /** Conservation of MAC keys: what was accepted has been revealed, is still stored, or was never stored
      because handling the TLVs of its message failed. */
  lemma MacKeyConservation(st: Start, s: Session, maxSkip: nat, p: Party)
    requires Reachable(st, s, maxSkip)
    ensures s.MacsOf(p).accepted == s.MacsOf(p).revealed + multiset(s.Of(p).oldMacKeys) + s.MacsOf(p).unstored
  {
    ReachableInv(st, s, maxSkip);
  }

  /** The first message of a ratchet reveals every stored MAC key, last one first, and leaves
      none behind; any other message reveals nothing. */
  lemma FirstMessageReveals(m: Manager, newKey: KeyId, payload: string)
    ensures Send(m, newKey, payload).Some? ==>
              var sent := Send(m, newKey, payload).value;
              && multiset(m.oldMacKeys) == multiset(sent.msg.revealed) + multiset(sent.after.oldMacKeys)
              && (sent.msg.body.id == 0 ==> sent.after.oldMacKeys == [])
              && (sent.msg.body.id > 0 ==> sent.msg.revealed == [])
  {
    ReversedKeepsMultiset(m.oldMacKeys);
    match RotateSending(m, newKey)
    case None =>
    case Some(m1) => assert m1.oldMacKeys == m.oldMacKeys;
  }

  // -------------------------------------------------------------- rejections

  lemma {:induction false} StoreLoopGrowth(t: Temp, until: nat, ecdh: KeyId)
    ensures var t1 := StoreLoop(t, until, ecdh); var steps := if t.n.k < until then until - t.n.k else 0;
            && t1 == t.(chainR := ChainAt(t.chainR, steps), skipped := t1.skipped, n := t.n.(k := t.n.k + steps))
            && |t1.skipped| == |t.skipped| + steps && t.skipped <= t1.skipped
    decreases until - t.n.k
  {
    if t.n.k < until {
      var t1 := t.(chainR := NextChain(t.chainR), skipped := t.skipped + [SkippedAt(ecdh, t.n.k, t.chainR)],
                   n := t.n.(k := t.n.k + 1));
      StoreLoopGrowth(t1, until, ecdh);
      ChainAtNext(t.chainR, until - t.n.k - 1);
    }
  }

  lemma StoreEncKeysGrowth(t: Temp, until: nat, maxSkip: nat, ecdh: KeyId) returns (x: nat)
    ensures var t1 := StoreEncKeys(t, until, maxSkip, ecdh);
            && t1 == t.(chainR := ChainAt(t.chainR, x), skipped := t1.skipped, n := t.n.(k := t1.n.k))
            && |t.skipped| <= |t1.skipped| <= |t.skipped| + maxSkip
            && (until <= t.n.k ==> x == 0)
  {
    x := if GapTooWide(t.n.k, maxSkip, until) || t.chainR == Zeros || t.n.k >= until then 0 else until - t.n.k;
    StoreLoopGrowth(t, until, ecdh);
    assert (t.n.k + maxSkip) % 0x1_0000_0000 <= t.n.k + maxSkip;
  }

  /** One receive adds at most twice the limit to the store, whatever the message says. */
  lemma StoreGrowthBounded(m: Manager, msg: DataMessage, maxSkip: nat)
    ensures var receipt := Receive(m, msg, maxSkip);
            !receipt.Undefined? ==> |receipt.after.skipped| <= |m.skipped| + 2 * maxSkip
  {
    var b := msg.body;
    var t := TempNew(m, b.ecdh, b.dh);
    if FindSkipped(m.skipped, b.ecdh, b.id).None? {
      if b.ecdh == m.pairs.theirEcdh {
        var _ := StoreEncKeysGrowth(t, b.id, maxSkip, b.ecdh);
      } else {
        var _ := StoreEncKeysGrowth(t, b.pn, maxSkip, m.pairs.theirEcdh);
        match RotateReceiving(m, StoreEncKeys(t, b.pn, maxSkip, m.pairs.theirEcdh))
        case None =>
        case Some(t1) =>
          var _ := StoreEncKeysGrowth(t1, b.id, maxSkip, b.ecdh);
      }
    }
  }

  lemma {:induction false} RootDepthOf(st: Start, r: nat)
    requires StartInv(st)
    ensures RootDepth(RootOf(st, r)) == r
  {
    if r > 0 {
      RootDepthOf(st, r - 1);
    }
  }

  /** A chain that starts from root key i of the schedule never yields the keys of an earlier ratchet. */
  lemma LaterRootNeverMatches(st: Start, i: nat, k: Term, x: nat, r: nat, id: nat)
    requires StartInv(st) && r < i
    ensures KeysAt(ChainAt(ChainStart(NextRoot(RootOf(st, i), k), k), x)).mac != KeysOf(st, r, id).mac
  {
    RootDepthOf(st, i);
    RootDepthOf(st, r + 1);
    if ChainAt(ChainStart(NextRoot(RootOf(st, i), k), k), x) == ChainAt(ChainOf(st, r), id) {
      ChainAtInjective(NextRoot(RootOf(st, i), k), k, x, RootOf(st, r + 1), MixOf(st, r), id);
      assert false;
    }
  }

  /** A message of an earlier ratchet taken for the start of a new one is never accepted. */
  lemma RotationRejects(st: Start, counts: seq<nat>, m: Manager, r: nat, id: nat, sent: Sent, maxSkip: nat)
    requires StartInv(st) && SentOf(st, counts, r, id, sent) && r < m.n.i && m.chains.rootKey == RootOf(st, m.n.i)
    requires FindSkipped(m.skipped, Ratchet(r), id).None? && m.pairs.theirEcdh != Ratchet(r)
    ensures !Receive(m, sent.msg, maxSkip).Accepted?
  {
    var b := sent.msg.body;
    var t0 := TempNew(m, b.ecdh, b.dh);
    var x0 := StoreEncKeysGrowth(t0, b.pn, maxSkip, m.pairs.theirEcdh);
    var t := StoreEncKeys(t0, b.pn, maxSkip, m.pairs.theirEcdh);
    match RotateReceiving(m, t)
    case None =>
    case Some(t1) =>
      var x := StoreEncKeysGrowth(t1, b.id, maxSkip, b.ecdh);
      var brace := BraceKey(m.n.i, m.pairs.ourDh.priv, b.dh, m.scratch.braceKey).value;
      LaterRootNeverMatches(st, m.n.i, MixedSecret(Ecdh(m.pairs.ourEcdh.priv, b.ecdh), brace), x, r, id);
  }

  /** A second copy on the current chain is decrypted with the wrong key. */
  lemma CurrentCopyRejected(st: Start, counts: seq<nat>, m: Manager, r: nat, id: nat, sent: Sent, maxSkip: nat)
    requires SentOf(st, counts, r, id, sent) && id < m.n.k
    requires FindSkipped(m.skipped, Ratchet(r), id).None? && m.pairs.theirEcdh == Ratchet(r)
    requires m.chains.chainR == ChainAt(ChainOf(st, r), m.n.k)
    ensures Receive(m, sent.msg, maxSkip).Rejected?
  {
    var b := sent.msg.body;
    var x := StoreEncKeysGrowth(TempNew(m, b.ecdh, b.dh), id, maxSkip, b.ecdh);
    if ChainAt(ChainOf(st, r), m.n.k) == ChainAt(ChainOf(st, r), id) {
      ChainAtInjective(RootOf(st, r + 1), MixOf(st, r), m.n.k, RootOf(st, r + 1), MixOf(st, r), id);
      assert false;
    }
  }

  lemma PassedCopyRefused(st: Start, s: Session, p: Party, r: nat, id: nat, maxSkip: nat)
    requires StartInv(st) && LogInv(st, s.counts, s.log) && SideInv(st, s, p) && (r, id) in s.log
    requires Passed(s.counts, s.Of(p).n, p, r, id) && (r, id) in s.Gone()
    ensures !Receive(s.Of(p), s.log[(r, id)].msg, maxSkip).Accepted?
  {
    var m, sent := s.Of(p), s.log[(r, id)];
    FoundIffWanted(st, m.skipped, Missing(s.counts, s.Gone(), m.n, p), r, id);
    TheirKeyOfLast(st, m.n.i, m.pairs, p, r);
    if r == LastReceived(m.n.i, p) {
      CurrentCopyRejected(st, s.counts, m, r, id, sent, maxSkip);
    } else {
      RotationRejects(st, s.counts, m, r, id, sent, maxSkip);
    }
  }

  lemma PassedCopyNeedsErased(st: Start, counts: seq<nat>, gone: set<(nat, nat)>, m: Manager, p: Party, r: nat, id: nat,
                              b: Body)
    requires StartInv(st) && PartyInv(st, counts, m, p) && StoreInv(st, counts, gone, m.n, m.skipped, p)
    requires BodyOf(st, counts, r, id, b) && Passed(counts, m.n, p, r, id) && (r, id) in gone
    ensures NeedsErased(m, b) <==> BetweenExchanges(m.n.i, p, r)
  {
    FoundIffWanted(st, m.skipped, Missing(counts, gone, m.n, p), r, id);
    TheirKeyOfLast(st, m.n.i, m.pairs, p, r);
    if m.n.i % 3 == 0 {
      HalfErasedIff(st, m.n.i, m.pairs, p);
    }
  }

  /** This side is about to open a ratchet with a new exchange, and what came last was not of ratchet r. */
  predicate BetweenExchanges(i: nat, p: Party, r: nat) {
    i % 3 == 0 && !OwnRatchet(i, p) && r != LastReceived(i, p)
  }

  /** Where an exchange is due the half is gone exactly on the side that is to make a new one. */
  lemma HalfErasedIff(st: Start, i: nat, pairs: KeyPairs, p: Party)
    requires OwnKeysInv(st, i, pairs, p) && i > 0 && i % 3 == 0
    ensures pairs.ourDh.priv.None? <==> !OwnRatchet(i, p)
  {
  }

  /** At most once: after any honest run, a message that was accepted before, or lost, is never accepted.
      It is rejected, with the counters, the root and chain keys and the peer's keys as they
      are, except that the outcome is not defined exactly when the side is about to open a
      ratchet with a new exchange and the message is not of the ratchet received from last. */
  lemma NeverTwice(st: Start, s: Session, maxSkip: nat, r: nat, id: nat)
    requires Reachable(st, s, maxSkip) && (r, id) in s.Gone()
    ensures (r, id) in s.log
    ensures var p := Other(SenderOf(r)); var m := s.Of(p); var receipt := Receive(m, s.log[(r, id)].msg, maxSkip);
            && !receipt.Accepted?
            && (receipt.Undefined? <==> BetweenExchanges(m.n.i, p, r))
            && (receipt.Rejected? ==>
                  && receipt.after.n == m.n && receipt.after.chains == m.chains
                  && receipt.after.pairs.theirEcdh == m.pairs.theirEcdh
                  && receipt.after.pairs.theirDh == m.pairs.theirDh)
  {
    ReachableInv(st, s, maxSkip);
    var p := Other(SenderOf(r));
    assert SideInv(st, s, p);
    assert Passed(s.counts, s.Of(p).n, p, r, id);
    PassedCopyRefused(st, s, p, r, id, maxSkip);
    assert SentOf(st, s.counts, r, id, s.log[(r, id)]);
    PassedCopyNeedsErased(st, s.counts, s.Gone(), s.Of(p), p, r, id, s.log[(r, id)].msg.body);
    UndefinedIff(s.Of(p), s.log[(r, id)].msg, maxSkip);
    if Receive(s.Of(p), s.log[(r, id)].msg, maxSkip).Rejected? {
      RejectedState(s.Of(p), s.log[(r, id)].msg, maxSkip);
    }
  }

  // --------------------------------------------------------- late messages

  /** Accepting a stored message makes its ratchet key the peer's current one. */
  lemma StoredLeaves(st: Start, s: Session, p: Party, r: nat, id: nat, maxSkip: nat) returns (m1: Manager)
    requires LogInv(st, s.counts, s.log) && SideInv(st, s, p) && (r, id) in s.log
    requires Passed(s.counts, s.Of(p).n, p, r, id) && (r, id) !in s.Gone()
    ensures Receive(s.Of(p), s.log[(r, id)].msg, maxSkip)
            == Accepted(m1, s.log[(r, id)].msg.body.payload, s.log[(r, id)].keys)
    ensures m1.pairs.theirEcdh == Ratchet(r) && m1.n == s.Of(p).n && m1.chains == s.Of(p).chains
    ensures m1.pairs.ourDh == s.Of(p).pairs.ourDh
    ensures forall e :: e in m1.skipped ==> e in s.Of(p).skipped
  {
    var m := s.Of(p);
    var want := Missing(s.counts, s.Gone(), m.n, p);
    var n := ReceiveStored(st, s.counts, m, want, r, id, s.log[(r, id)], maxSkip);
    m1 := Receive(m, s.log[(r, id)].msg, maxSkip).after;
    NoDuplicatesRemove(m.skipped, n);
  }

  /** Where a side stands that has accepted a late message, with the chain still that of ratchet next. */
  predicate LeftChain(st: Start, m: Manager, p: Party, r: nat, next: nat, id: nat) {
    && m.pairs.theirEcdh == Ratchet(r)
    && next < m.n.i && m.chains.rootKey == RootOf(st, m.n.i)
    && m.chains.chainR == ChainAt(ChainOf(st, next), m.n.k) && m.n.k <= id
    && FindSkipped(m.skipped, Ratchet(next), id).None?
    && (m.n.i % 3 == 0 ==> (m.pairs.ourDh.priv.None? <==> !OwnRatchet(m.n.i, p)))
  }

  /** Late messages. Accepting a stored message (r, id) is harmless exactly when it is of the
      chain still in use, that is, when its key is the peer's current one: only then does a
      message (next, id') that follows on the current chain still get accepted. Otherwise
      that message is taken for a new ratchet and rejected, or, exactly when an exchange is
      due that this side is to make, its outcome is not defined. */
  lemma LateMessageHarmlessIff(st: Start, s: Session, maxSkip: nat, r: nat, id: nat, next: nat, id': nat)
    requires Reachable(st, s, maxSkip)
    requires (r, id) in s.log && (r, id) !in s.Gone() && (next, id') in s.log && (next, id') !in s.Gone()
    requires SenderOf(next) == SenderOf(r)
    requires var m := s.Of(Other(SenderOf(r)));
             && FindSkipped(m.skipped, Ratchet(r), id).Some?
             && m.pairs.theirEcdh == Ratchet(next) && m.n.k <= id' && !GapTooWide(m.n.k, maxSkip, id')
    ensures var p := Other(SenderOf(r)); var m := s.Of(p);
            var late := Receive(m, s.log[(r, id)].msg, maxSkip);
            && late.Accepted? && late.keys == s.log[(r, id)].keys
            && var following := Receive(late.after, s.log[(next, id')].msg, maxSkip);
            && (following.Accepted? <==> s.log[(r, id)].msg.body.ecdh == m.pairs.theirEcdh)
            && (following.Undefined? <==> BetweenExchanges(m.n.i, p, r))
  {
    var p := Other(SenderOf(r));
    ReachableInv(st, s, maxSkip);
    assert SideInv(st, s, p);
    var m1 := LateLeaves(st, s, p, maxSkip, r, id, next, id');
    TheirKeyOfLast(st, s.Of(p).n.i, s.Of(p).pairs, p, next);
    FollowOnAcceptedIff(st, s.counts, m1, p, r, next, id', s.log[(next, id')], maxSkip);
  }

  lemma LateLeaves(st: Start, s: Session, p: Party, maxSkip: nat, r: nat, id: nat, next: nat, id': nat)
    returns (m1: Manager)
    requires StartInv(st) && LogInv(st, s.counts, s.log) && SideInv(st, s, p)
    requires (r, id) in s.log && (r, id) !in s.Gone()
    requires FindSkipped(s.Of(p).skipped, Ratchet(r), id).Some? && s.Of(p).pairs.theirEcdh == Ratchet(next)
    requires s.Of(p).n.k <= id'
    ensures Receive(s.Of(p), s.log[(r, id)].msg, maxSkip)
            == Accepted(m1, s.log[(r, id)].msg.body.payload, s.log[(r, id)].keys)
    ensures s.log[(r, id)].msg.body.ecdh == Ratchet(r) && m1.n == s.Of(p).n && LeftChain(st, m1, p, r, next, id')
  {
    FoundIffWanted(st, s.Of(p).skipped, Missing(s.counts, s.Gone(), s.Of(p).n, p), r, id);
    m1 := StoredLeaves(st, s, p, r, id, maxSkip);
    assert SentOf(st, s.counts, r, id, s.log[(r, id)]);
    OnCurrentChain(st, s.counts, s.Gone(), s.Of(p), p, next, id');
    StillOnChain(st, s.Of(p), m1, p, r, next, id');
  }

  lemma OnCurrentChain(st: Start, counts: seq<nat>, gone: set<(nat, nat)>, m: Manager, p: Party, next: nat, id: nat)
    requires StartInv(st) && PartyInv(st, counts, m, p) && StoreInv(st, counts, gone, m.n, m.skipped, p)
    requires m.pairs.theirEcdh == Ratchet(next) && m.n.k <= id
    ensures LeftChain(st, m, p, next, next, id)
  {
    TheirKeyOfLast(st, m.n.i, m.pairs, p, next);
    FoundIffWanted(st, m.skipped, Missing(counts, gone, m.n, p), next, id);
    if m.n.i % 3 == 0 {
      HalfErasedIff(st, m.n.i, m.pairs, p);
    }
  }

  lemma StillOnChain(st: Start, m: Manager, m1: Manager, p: Party, r: nat, next: nat, id: nat)
    requires LeftChain(st, m, p, next, next, id)
    requires m1.pairs.theirEcdh == Ratchet(r) && m1.n == m.n && m1.chains == m.chains && m1.pairs.ourDh == m.pairs.ourDh
    requires forall e :: e in m1.skipped ==> e in m.skipped
    ensures LeftChain(st, m1, p, r, next, id)
  {
  }

  lemma FollowOnAcceptedIff(st: Start, counts: seq<nat>, m1: Manager, p: Party, r: nat, next: nat, id: nat, sent: Sent,
                            maxSkip: nat)
    requires StartInv(st) && SentOf(st, counts, next, id, sent) && LeftChain(st, m1, p, r, next, id)
    requires !GapTooWide(m1.n.k, maxSkip, id)
    ensures Receive(m1, sent.msg, maxSkip).Accepted? <==> r == next
    ensures Receive(m1, sent.msg, maxSkip).Undefined? <==> r != next && m1.n.i % 3 == 0 && !OwnRatchet(m1.n.i, p)
  {
    UndefinedIff(m1, sent.msg, maxSkip);
    if r == next {
      ReceiveCurrent(st, counts, m1, r, id, sent, maxSkip);
    } else {
      RotationRejects(st, counts, m1, next, id, sent, maxSkip);
    }
  }
}
