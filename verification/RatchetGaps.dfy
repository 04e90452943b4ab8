/** What the limit on stored keys costs: exactly which messages are refused, and that a gap
    before a new ratchet loses the rest of the old one. */
module RatchetGaps {
  import opened Prelude
  import opened Keys
  import opened KeyManager
  import opened RatchetSession
  import opened RatchetProofs
  import opened RatchetReceive
  import opened RatchetDelivery
  import opened RatchetTheorems

  /** Equal MAC keys on one chain mean the same message id. */
  lemma SamePosition(st: Start, r: nat, x: nat, id: nat)
    ensures KeysAt(ChainAt(ChainOf(st, r), x)).mac == KeysOf(st, r, id).mac <==> x == id
  {
    if ChainAt(ChainOf(st, r), x) == ChainAt(ChainOf(st, r), id) {
      ChainAtInjective(RootOf(st, r + 1), MixOf(st, r), x, RootOf(st, r + 1), MixOf(st, r), id);
    }
  }

  /** On the right chain, the right keys come out exactly when the guard lets the loop run. */
  lemma ChainKeysIff(st: Start, m: Manager, t: Temp, r: nat, id: nat, maxSkip: nat)
    requires t.chainR == ChainAt(ChainOf(st, r), t.n.k) && t.theirEcdh == Ratchet(r) && t.n.k <= id
    ensures var a := DeriveChainKeysReceiving(m, t, id, maxSkip);
            && a.m == m
            && (id == t.n.k || !GapTooWide(t.n.k, maxSkip, id) ==> a.keys == KeysOf(st, r, id))
            && (a.keys.mac == KeysOf(st, r, id).mac ==> id == t.n.k || !GapTooWide(t.n.k, maxSkip, id))
  {
    ChainNotZeros(st, r, t.n.k);
    StoreLoopStores(st, t, r, id);
    SamePosition(st, r, t.n.k, id);
  }

  /** Whether the superseded chain could be stored makes no difference to the new ratchet. */
  lemma EntersAnyway(st: Start, counts: seq<nat>, m: Manager, p: Party, r: nat, b: Body, maxSkip: nat)
    returns (t: Temp)
    requires PartyInv(st, counts, m, p) && BodyOf(st, counts, r, b.id, b) && r == m.n.i && OwnRatchet(r, p)
    ensures RotateReceiving(m, StoreEncKeys(TempNew(m, b.ecdh, b.dh), b.pn, maxSkip, m.pairs.theirEcdh)) == Some(t)
    ensures t.chainR == ChainOf(st, r) && t.n == Counters(r + 1, 0, 0, m.n.j) && t.theirEcdh == Ratchet(r)
    ensures t.rootKey == RootOf(st, r + 1)
    ensures t.skipped == StoreEncKeys(TempNew(m, b.ecdh, b.dh), b.pn, maxSkip, m.pairs.theirEcdh).skipped
  {
    EnteredKeys(st, r, m.pairs, m.chains.rootKey, p);
    var x := StoreEncKeysGrowth(TempNew(m, b.ecdh, b.dh), b.pn, maxSkip, m.pairs.theirEcdh);
    t := RotateReceiving(m, StoreEncKeys(TempNew(m, b.ecdh, b.dh), b.pn, maxSkip, m.pairs.theirEcdh)).value;
  }

  lemma CurrentIff(st: Start, counts: seq<nat>, m: Manager, r: nat, id: nat, sent: Sent, maxSkip: nat)
    requires SentOf(st, counts, r, id, sent) && m.n.k <= id
    requires m.pairs.theirEcdh == Ratchet(r) && m.chains.chainR == ChainAt(ChainOf(st, r), m.n.k)
    requires FindSkipped(m.skipped, Ratchet(r), id).None?
    ensures Receive(m, sent.msg, maxSkip).Accepted? <==> CanReach(m, sent.msg.body, maxSkip)
  {
    ChainKeysIff(st, m, TempNew(m, sent.msg.body.ecdh, sent.msg.body.dh), r, id, maxSkip);
  }

  lemma NewIff(st: Start, counts: seq<nat>, m: Manager, p: Party, r: nat, id: nat, sent: Sent, maxSkip: nat)
    requires PartyInv(st, counts, m, p) && SentOf(st, counts, r, id, sent)
    requires r == m.n.i && OwnRatchet(r, p) && m.pairs.theirEcdh != Ratchet(r)
    requires FindSkipped(m.skipped, Ratchet(r), id).None?
    ensures Receive(m, sent.msg, maxSkip).Accepted? <==> CanReach(m, sent.msg.body, maxSkip)
  {
    var t := EntersAnyway(st, counts, m, p, r, sent.msg.body, maxSkip);
    ChainKeysIff(st, EraseDhOnRotate(m), t, r, id, maxSkip);
  }

  /** After any honest run, a message that was sent and not yet delivered is accepted if and only if it
      is not lost, and its key is stored, it is the very next one of its chain, or the guard on
      its own chain does not fire. */
  lemma AcceptedIff(st: Start, s: Session, maxSkip: nat, r: nat, id: nat)
    requires Reachable(st, s, maxSkip) && (r, id) in s.log && (r, id) !in s.delivered
    ensures Receive(s.Of(Other(SenderOf(r))), s.log[(r, id)].msg, maxSkip).Accepted?
        <==> (r, id) !in s.lost && CanReach(s.Of(Other(SenderOf(r))), s.log[(r, id)].msg.body, maxSkip)
  {
    if (r, id) in s.lost {
      NeverTwice(st, s, maxSkip, r, id);
    } else {
      ReachableInv(st, s, maxSkip);
      assert SideInv(st, s, Other(SenderOf(r)));
      PendingIff(st, s, Other(SenderOf(r)), maxSkip, r, id);
    }
  }

  lemma PendingIff(st: Start, s: Session, p: Party, maxSkip: nat, r: nat, id: nat)
    requires StartInv(st) && LogInv(st, s.counts, s.log) && SideInv(st, s, p) && p == Other(SenderOf(r))
    requires (r, id) in s.log && (r, id) !in s.Gone()
    ensures Receive(s.Of(p), s.log[(r, id)].msg, maxSkip).Accepted?
        <==> CanReach(s.Of(p), s.log[(r, id)].msg.body, maxSkip)
  {
    var m, sent := s.Of(p), s.log[(r, id)];
    var want := Missing(s.counts, s.Gone(), m.n, p);
    Standing(s.counts, m.n, p, r, id);
    FoundIffWanted(st, m.skipped, want, r, id);
    TheirKeyOfLast(st, m.n.i, m.pairs, p, r);
    if Passed(s.counts, m.n, p, r, id) {
      var n := ReceiveStored(st, s.counts, m, want, r, id, sent, maxSkip);
    } else if r == LastReceived(m.n.i, p) {
      CurrentIff(st, s.counts, m, r, id, sent, maxSkip);
    } else {
      NewIff(st, s.counts, m, p, r, id, sent, maxSkip);
    }
  }

  // ------------------------------------------------------- the guard in numbers

  /** As long as the 32-bit sum does not wrap around, the guard fires for gaps above the limit; once
      it does, the room counts from zero again. */
  lemma GuardInNumbers(k: nat, maxSkip: nat, until: nat)
    ensures k + maxSkip < 0x1_0000_0000 ==> (GapTooWide(k, maxSkip, until) <==> until > k + maxSkip)
    ensures 0x1_0000_0000 <= k + maxSkip < 0x2_0000_0000 ==>
              (GapTooWide(k, maxSkip, until) <==> until + 0x1_0000_0000 > k + maxSkip)
  {
  }

  /** Where message (r, id) stands when nothing has come of its ratchet. */
  function Position(n: Counters, p: Party, r: nat): nat { if r == LastReceived(n.i, p) then n.k else 0 }

  /** What reaching a message means for one that was sent and neither delivered nor lost: it is of a ratchet
      received from before the last one, is the very next one, or is no further ahead than the limit. */
  lemma ReachInNumbers(st: Start, s: Session, p: Party, maxSkip: nat, r: nat, id: nat)
    requires StartInv(st) && LogInv(st, s.counts, s.log) && SideInv(st, s, p) && p == Other(SenderOf(r))
    requires (r, id) in s.log && (r, id) !in s.Gone()
    ensures var n := s.Of(p).n;
            CanReach(s.Of(p), s.log[(r, id)].msg.body, maxSkip) <==>
              || r < LastReceived(n.i, p) || id <= Position(n, p, r)
              || !GapTooWide(Position(n, p, r), maxSkip, id)
  {
    var m := s.Of(p);
    Standing(s.counts, m.n, p, r, id);
    FoundIffWanted(st, m.skipped, Missing(s.counts, s.Gone(), m.n, p), r, id);
    TheirKeyOfLast(st, m.n.i, m.pairs, p, r);
    assert SentOf(st, s.counts, r, id, s.log[(r, id)]);
  }

  /** Acceptance in plain numbers: after any honest run a message that was sent and not yet delivered is accepted
      if and only if it is not lost, and it is of a ratchet before the last one received from, or lies
      at most the limit beyond the receive counter of its own chain. */
  lemma AcceptedInNumbers(st: Start, s: Session, maxSkip: nat, r: nat, id: nat)
    requires Reachable(st, s, maxSkip) && (r, id) in s.log && (r, id) !in s.delivered
    requires Position(s.Of(Other(SenderOf(r))).n, Other(SenderOf(r)), r) + maxSkip < 0x1_0000_0000
    ensures var p := Other(SenderOf(r)); var m := s.Of(p);
            Receive(m, s.log[(r, id)].msg, maxSkip).Accepted? <==>
              (r, id) !in s.lost && (r < LastReceived(m.n.i, p) || id <= Position(m.n, p, r) + maxSkip)
  {
    var p := Other(SenderOf(r));
    AcceptedIff(st, s, maxSkip, r, id);
    if (r, id) !in s.lost {
      ReachableInv(st, s, maxSkip);
      assert SideInv(st, s, p);
      ReachInNumbers(st, s, p, maxSkip, r, id);
      GuardInNumbers(Position(s.Of(p).n, p, r), maxSkip, id);
    }
  }

  /** When the sum of receive counter and limit wraps around, the room beyond the counter is gone: of the messages
      ahead only the very next one is accepted, and those below what is left of the sum. */
  lemma AcceptedWrapping(st: Start, s: Session, maxSkip: nat, r: nat, id: nat)
    requires Reachable(st, s, maxSkip) && (r, id) in s.log && (r, id) !in s.delivered
    requires var k := Position(s.Of(Other(SenderOf(r))).n, Other(SenderOf(r)), r);
             0x1_0000_0000 <= k + maxSkip < 0x2_0000_0000
    ensures var p := Other(SenderOf(r)); var m := s.Of(p);
            Receive(m, s.log[(r, id)].msg, maxSkip).Accepted? <==>
              && (r, id) !in s.lost
              && (|| r < LastReceived(m.n.i, p) || id <= Position(m.n, p, r)
                  || id + 0x1_0000_0000 <= Position(m.n, p, r) + maxSkip)
  {
    var p := Other(SenderOf(r));
    AcceptedIff(st, s, maxSkip, r, id);
    if (r, id) !in s.lost {
      ReachableInv(st, s, maxSkip);
      assert SideInv(st, s, p);
      ReachInNumbers(st, s, p, maxSkip, r, id);
      GuardInNumbers(Position(s.Of(p).n, p, r), maxSkip, id);
    }
  }

  lemma LossOf(st: Start, s: Session, p: Party, maxSkip: nat, r: nat, id: nat)
    requires StartInv(st) && LogInv(st, s.counts, s.log) && SideInv(st, s, p) && p == Other(SenderOf(r))
    requires HonestDelivery(s, r, id, maxSkip) && s.Of(p).n.k + maxSkip < 0x1_0000_0000
    ensures var m := s.Of(p); var left := Count(s.counts, r - 2);
            LostBy(m, r, s.log[(r, id)].msg.body, maxSkip)
            == if r >= 2 && r == m.n.i && left > m.n.k + maxSkip then Ids(r - 2, m.n.k, left) else {}
  {
    var m := s.Of(p);
    Standing(s.counts, m.n, p, r, id);
    FoundIffWanted(st, m.skipped, Missing(s.counts, s.Gone(), m.n, p), r, id);
    TheirKeyOfLast(st, m.n.i, m.pairs, p, r);
    assert SentOf(st, s.counts, r, id, s.log[(r, id)]);
    GuardInNumbers(m.n.k, maxSkip, s.log[(r, id)].msg.body.pn);
  }

  /** Loss in plain numbers: an honest delivery loses messages exactly when it opens a ratchet and the old chain has
      more than the limit still outstanding, and then it loses all of those. */
  lemma LostInNumbers(st: Start, s: Session, maxSkip: nat, r: nat, id: nat)
    requires Reachable(st, s, maxSkip) && HonestDelivery(s, r, id, maxSkip)
    requires s.Of(Other(SenderOf(r))).n.k + maxSkip < 0x1_0000_0000
    ensures var m := s.Of(Other(SenderOf(r))); var left := Count(s.counts, r - 2);
            DeliverStep(s, r, id, maxSkip).lost
            == s.lost + if r >= 2 && r == m.n.i && left > m.n.k + maxSkip then Ids(r - 2, m.n.k, left) else {}
  {
    var p := Other(SenderOf(r));
    ReachableInv(st, s, maxSkip);
    assert SideInv(st, s, p);
    LossOf(st, s, p, maxSkip, r, id);
    DeliveryAccepted(st, s, p, r, id, maxSkip);
    DeliverStepShape(s, p, r, id, maxSkip);
  }

  // ---------------------------------------------------- the price of the guard

  lemma ReachableStep(st: Start, s: Session, e: Event, maxSkip: nat)
    requires Reachable(st, s, maxSkip) && HonestEvent(s, e, maxSkip)
    ensures Reachable(st, Step(s, e, maxSkip), maxSkip)
  {
    var s0: Session, events: seq<Event> :|
      Initial(st, s0) && HonestRun(s0, events, maxSkip) && s == Run(s0, events, maxSkip);
    var more := events + [e];
    assert more[..|more| - 1] == events;
    assert HonestRun(s0, more, maxSkip) && Run(s0, more, maxSkip) == Step(s, e, maxSkip);
  }

  /** Later: what was sent stays as it was, and what was lost stays lost. */
  ghost predicate Later(s: Session, s': Session) {
    && (forall r: nat, id: nat | (r, id) in s.log :: (r, id) in s'.log && s'.log[(r, id)] == s.log[(r, id)])
    && s.lost <= s'.lost && s.delivered <= s'.delivered
  }

  lemma SendIsLater(st: Start, s: Session, p: Party, payload: string)
    requires Inv(st, s)
    ensures Later(s, SendStep(s, p, payload))
  {
    if s.MaySend(p) {
      var r, sent := SendKeepsSides(st, s, p, payload);
    }
  }

  lemma DeliverIsLater(s: Session, r: nat, id: nat, maxSkip: nat)
    ensures Later(s, DeliverStep(s, r, id, maxSkip))
  {
    if (r, id) in s.log {
      var p := Other(SenderOf(r));
      match Receive(s.Of(p), s.log[(r, id)].msg, maxSkip)
      case Undefined =>
      case Rejected(m, _) =>
        assert DeliverStep(s, r, id, maxSkip) == s.With(p, m, s.MacsOf(p));
      case Accepted(m, _, keys) =>
        DeliverStepShape(s, p, r, id, maxSkip);
    }
  }

  lemma UnhandledIsLater(s: Session, s1: Session, r: nat, id: nat, maxSkip: nat)
    requires Later(s, s1) && s1 == DeliverStep(s, r, id, maxSkip)
    ensures Later(s, UnhandledStep(s, r, id, maxSkip))
  {
  }

  lemma InjectIsLater(s: Session, p: Party, msg: DataMessage, maxSkip: nat)
    ensures Later(s, InjectStep(s, p, msg, maxSkip))
  {
  }

  lemma StepIsLater(st: Start, s: Session, e: Event, maxSkip: nat)
    requires Inv(st, s)
    ensures Later(s, Step(s, e, maxSkip))
  {
    match e
    case SendEvent(p, payload) => SendIsLater(st, s, p, payload);
    case DeliverEvent(r, id) => DeliverIsLater(s, r, id, maxSkip);
    case UnhandledEvent(r, id) =>
      DeliverIsLater(s, r, id, maxSkip);
      UnhandledIsLater(s, DeliverStep(s, r, id, maxSkip), r, id, maxSkip);
    case InjectEvent(p, msg) => InjectIsLater(s, p, msg, maxSkip);
  }

  /** An honest continuation of an honest run. */
  lemma {:induction false} RunIsLater(st: Start, s: Session, events: seq<Event>, maxSkip: nat)
    requires Reachable(st, s, maxSkip) && HonestRun(s, events, maxSkip)
    ensures Reachable(st, Run(s, events, maxSkip), maxSkip) && Later(s, Run(s, events, maxSkip))
  {
    if events != [] {
      var before, e := events[..|events| - 1], events[|events| - 1];
      RunIsLater(st, s, before, maxSkip);
      ReachableInv(st, Run(s, before, maxSkip), maxSkip);
      ReachableStep(st, Run(s, before, maxSkip), e, maxSkip);
      StepIsLater(st, Run(s, before, maxSkip), e, maxSkip);
    }
  }

  /** What becomes of message (r, id) now: it is not accepted, and the outcome is not defined exactly between
      exchanges. */
  predicate Refused(s: Session, msg: DataMessage, r: nat, maxSkip: nat) {
    var p := Other(SenderOf(r)); var receipt := Receive(s.Of(p), msg, maxSkip);
    !receipt.Accepted? && (receipt.Undefined? <==> BetweenExchanges(s.Of(p).n.i, p, r))
  }

  /** A message that is lost or was delivered is refused for the rest of every honest run. */
  lemma GoneForever(st: Start, s: Session, events: seq<Event>, maxSkip: nat, r: nat, id: nat)
    requires Reachable(st, s, maxSkip) && HonestRun(s, events, maxSkip) && (r, id) in s.Gone()
    ensures (r, id) in s.log && Refused(Run(s, events, maxSkip), s.log[(r, id)].msg, r, maxSkip)
  {
    NeverTwice(st, s, maxSkip, r, id);
    RunIsLater(st, s, events, maxSkip);
    NeverTwice(st, Run(s, events, maxSkip), maxSkip, r, id);
  }

  /** Delivering (r + 2, id) opens a ratchet and leaves message (r, lost) behind unstored. */
  ghost predicate LeavesBehind(s: Session, maxSkip: nat, r: nat, id: nat, lost: nat) {
    && HonestEvent(s, DeliverEvent(r + 2, id), maxSkip)
    && var m, b := s.Of(Other(SenderOf(r + 2))), s.log[(r + 2, id)].msg.body;
    && StartsRatchet(m, b) && GapTooWide(m.n.k, maxSkip, b.pn) && m.n.k <= lost < b.pn
  }

  lemma LostOnDelivery(st: Start, s: Session, maxSkip: nat, r: nat, id: nat, lost: nat) returns (entered: Session)
    requires Reachable(st, s, maxSkip) && LeavesBehind(s, maxSkip, r, id, lost)
    ensures entered == DeliverStep(s, r + 2, id, maxSkip) && Reachable(st, entered, maxSkip)
    ensures (r + 2, id) in entered.delivered && (r, lost) in entered.lost && entered.log == s.log
  {
    ReachableInv(st, s, maxSkip);
    var after := DeliverKeepsSides(st, s, r + 2, id, maxSkip);
    assert SentOf(st, s.counts, r + 2, id, s.log[(r + 2, id)]);
    assert (r, lost) in LostBy(s.Of(Other(SenderOf(r + 2))), r + 2, s.log[(r + 2, id)].msg.body, maxSkip);
    ReachableStep(st, s, DeliverEvent(r + 2, id), maxSkip);
    entered := DeliverStep(s, r + 2, id, maxSkip);
  }

  /** The message is refused in this state and through every honest continuation. */
  ghost predicate RefusedForever(s: Session, maxSkip: nat, r: nat, id: nat) {
    (r, id) in s.log &&
    forall events: seq<Event> | HonestRun(s, events, maxSkip) ::
      Refused(Run(s, events, maxSkip), s.log[(r, id)].msg, r, maxSkip)
  }

  lemma GoneIsRefusedForever(st: Start, s: Session, maxSkip: nat, r: nat, id: nat)
    requires Reachable(st, s, maxSkip) && (r, id) in s.Gone()
    ensures RefusedForever(s, maxSkip, r, id)
  {
    NeverTwice(st, s, maxSkip, r, id);
    forall events: seq<Event> | HonestRun(s, events, maxSkip)
      ensures Refused(Run(s, events, maxSkip), s.log[(r, id)].msg, r, maxSkip)
    {
      GoneForever(st, s, events, maxSkip, r, id);
    }
  }

  /** A new ratchet that arrives after more than the storable number of messages were missed is entered
      all the same, but every missed message of the old one is refused from then on, through
      every honest continuation. */
  lemma GapLosesChain(st: Start, s: Session, maxSkip: nat, r: nat, id: nat, lost: nat) returns (entered: Session)
    requires Reachable(st, s, maxSkip) && LeavesBehind(s, maxSkip, r, id, lost)
    ensures entered == DeliverStep(s, r + 2, id, maxSkip) && Reachable(st, entered, maxSkip)
    ensures (r + 2, id) in entered.delivered && entered.log == s.log
    ensures RefusedForever(entered, maxSkip, r, lost)
  {
    entered := LostOnDelivery(st, s, maxSkip, r, id, lost);
    GoneIsRefusedForever(st, entered, maxSkip, r, lost);
  }
}
