/** What a rejected message can do: exactly when it is harmless, and what follows when it is not. */
module RatchetRejection {
  import opened Prelude
  import opened Keys
  import opened KeyManager
  import opened RatchetSession
  import opened RatchetTheorems
  import opened RatchetGaps

  /** The session after p has rejected a message. */
  function AfterRejection(s: Session, p: Party, msg: DataMessage, maxSkip: nat): Session
    requires Receive(s.Of(p), msg, maxSkip).Rejected?
  {
    s.With(p, Receive(s.Of(p), msg, maxSkip).after, s.MacsOf(p))
  }

  lemma ErasureBreaksKeys(st: Start, i: nat, pairs: KeyPairs, p: Party)
    requires OwnRatchet(i, p) && i % 3 == 0 && pairs.ourDh.priv.None?
    ensures !OwnKeysInv(st, i, pairs, p)
  {
  }

  /** Exactly when a message that is rejected does no harm: no list has been freed that is still in use, and
      the session remains one that an honest run reaches, if and only if the store is empty and
      the message is not taken for the start of a ratchet with a new exchange by a side that
      waits for it. With an empty store, when nothing is erased nothing changes at all. */
  lemma HarmlessIff(st: Start, s: Session, p: Party, msg: DataMessage, maxSkip: nat)
    requires Reachable(st, s, maxSkip) && Receive(s.Of(p), msg, maxSkip).Rejected?
    ensures !Receive(s.Of(p), msg, maxSkip).freed && Reachable(st, AfterRejection(s, p, msg, maxSkip), maxSkip)
        <==> Harmless(s.Of(p), p, msg.body)
    ensures s.Of(p).skipped == [] ==> (AfterRejection(s, p, msg, maxSkip) == s <==> !Erases(s.Of(p), msg.body))
  {
    RejectedState(s.Of(p), msg, maxSkip);
    if Harmless(s.Of(p), p, msg.body) {
      ReachableStep(st, s, InjectEvent(p, msg), maxSkip);
    } else if s.Of(p).skipped == [] && Reachable(st, AfterRejection(s, p, msg, maxSkip), maxSkip) {
      HarmIsSeen(st, s, p, msg, maxSkip);
    }
  }

  /** What the list that has been freed held: without the entry that was found, or with the keys on top that were
      stored on the way. */
  lemma FreedHeld(m: Manager, msg: DataMessage, maxSkip: nat)
    requires Receive(m, msg, maxSkip).Rejected? && Receive(m, msg, maxSkip).freed
    ensures match FindSkipped(m.skipped, msg.body.ecdh, msg.body.id)
            case Some(n) => Receive(m, msg, maxSkip).after.skipped == RemoveAt(m.skipped, n)
            case None => m.skipped <= Receive(m, msg, maxSkip).after.skipped
  {
    var b := msg.body;
    var t := TempNew(m, b.ecdh, b.dh);
    if FindSkipped(m.skipped, b.ecdh, b.id).None? {
      if b.ecdh == m.pairs.theirEcdh {
        StoreKeeps(t, b.id, maxSkip, b.ecdh);
      } else {
        StoreKeeps(t, b.pn, maxSkip, m.pairs.theirEcdh);
        var t1 := RotateReceiving(m, StoreEncKeys(t, b.pn, maxSkip, m.pairs.theirEcdh)).value;
        StoreKeeps(t1, b.id, maxSkip, b.ecdh);
        Prefixes(m.skipped, t1.skipped, StoreEncKeys(t1, b.id, maxSkip, b.ecdh).skipped);
      }
    }
  }

  lemma Prefixes<X>(a: seq<X>, b: seq<X>, c: seq<X>)
    requires a <= b <= c
    ensures a <= c
  {
  }

  lemma StoreKeeps(t: Temp, until: nat, maxSkip: nat, ecdh: KeyId)
    ensures t.skipped <= StoreEncKeys(t, until, maxSkip, ecdh).skipped
    ensures StoreEncKeys(t, until, maxSkip, ecdh).theirEcdh == t.theirEcdh
  {
    StoreLoopGrowth(t, until, ecdh);
  }

  lemma ReachableSide(st: Start, s: Session, maxSkip: nat, p: Party)
    requires Reachable(st, s, maxSkip)
    ensures OwnKeysInv(st, s.Of(p).n.i, s.Of(p).pairs, p)
  {
    PartyOf(st, s, maxSkip, p);
  }

  lemma HarmIsSeen(st: Start, s: Session, p: Party, msg: DataMessage, maxSkip: nat)
    requires Receive(s.Of(p), msg, maxSkip).Rejected?
    requires Erases(s.Of(p), msg.body) && OwnRatchet(s.Of(p).n.i, p)
    ensures !Reachable(st, AfterRejection(s, p, msg, maxSkip), maxSkip)
  {
    RejectedState(s.Of(p), msg, maxSkip);
    var s' := AfterRejection(s, p, msg, maxSkip);
    ErasureBreaksKeys(st, s'.Of(p).n.i, s'.Of(p).pairs, p);
    if Reachable(st, s', maxSkip) {
      ReachableSide(st, s', maxSkip, p);
      assert false;
    }
  }

  // ------------------------------------------------------- when it is not harmless

  /** What one side does by itself: sending, which 'u' may not before it has received, and receiving any
      message at all. */
  datatype Local = Sends(newKey: KeyId, payload: string) | Receives(msg: DataMessage)

  /** None when the outcome is not defined. */
  function LocalStep(m: Manager, p: Party, e: Local, maxSkip: nat): Option<Manager> {
    match e
    case Receives(msg) =>
      (match Receive(m, msg, maxSkip)
       case Undefined => None
       case receipt => Some(receipt.after))
    case Sends(newKey, payload) =>
      if p == U && m.n.i == 0 then Some(m)
      else match Send(m, newKey, payload) case None => Some(m) case Some(sent) => Some(sent.after)
  }

  /** The state after these events, as long as all their outcomes are defined. */
  function LocalRun(m: Manager, p: Party, events: seq<Local>, maxSkip: nat): Option<Manager> {
    if events == [] then Some(m)
    else
      match LocalRun(m, p, events[..|events| - 1], maxSkip)
      case None => None
      case Some(before) => LocalStep(before, p, events[|events| - 1], maxSkip)
  }

  /** Without the private half of a new exchange no ratchet can be entered, and none is opened while this
      side goes on sending on its chain; the key is neither the peer's current one nor one of
      the stored. */
  predicate Stranded(m: Manager, p: Party, key: KeyId) {
    && m.n.i % 3 == 0 && m.pairs.ourDh.priv.None? && (m.n.j > 0 || (p == U && m.n.i == 0))
    && m.pairs.theirEcdh != key && forall e | e in m.skipped :: e.theirEcdh != key
  }

  lemma {:induction false} StoreLoopFiles(t: Temp, until: nat, ecdh: KeyId)
    ensures forall e | e in StoreLoop(t, until, ecdh).skipped :: e in t.skipped || e.theirEcdh == ecdh
    decreases until - t.n.k
  {
    if t.n.k < until {
      StoreLoopFiles(t.(chainR := NextChain(t.chainR), skipped := t.skipped + [SkippedAt(ecdh, t.n.k, t.chainR)],
                        n := t.n.(k := t.n.k + 1)), until, ecdh);
    }
  }

  /** No message under the key has a defined outcome. */
  lemma StrandedUndefined(m: Manager, p: Party, key: KeyId, msg: DataMessage, maxSkip: nat)
    requires Stranded(m, p, key) && msg.body.ecdh == key
    ensures Receive(m, msg, maxSkip) == Undefined
  {
  }

  lemma StrandedReceives(m: Manager, p: Party, key: KeyId, msg: DataMessage, maxSkip: nat)
    requires Stranded(m, p, key) && !Receive(m, msg, maxSkip).Undefined?
    ensures Stranded(Receive(m, msg, maxSkip).after, p, key)
  {
    UndefinedIff(m, msg, maxSkip);
    var b := msg.body;
    var t := TempNew(m, b.ecdh, b.dh);
    match FindSkipped(m.skipped, b.ecdh, b.id)
    case Some(n) =>
      RemovedWere(m.skipped, n);
      assert m.skipped[n] in m.skipped;
    case None =>
      StoreLoopFiles(t, b.id, b.ecdh);
      var x := StoreEncKeysGrowth(t, b.id, maxSkip, b.ecdh);
  }

  lemma RemovedWere<X>(s: seq<X>, n: nat)
    requires n < |s|
    ensures forall e | e in RemoveAt(s, n) :: e in s
  {
  }

  lemma StrandedSends(m: Manager, p: Party, key: KeyId, newKey: KeyId, payload: string, maxSkip: nat)
    requires Stranded(m, p, key)
    ensures Stranded(LocalStep(m, p, Sends(newKey, payload), maxSkip).value, p, key)
  {
  }

  lemma {:induction false} StrandedForever(m: Manager, p: Party, key: KeyId, events: seq<Local>, maxSkip: nat)
    requires Stranded(m, p, key) && LocalRun(m, p, events, maxSkip).Some?
    ensures Stranded(LocalRun(m, p, events, maxSkip).value, p, key)
  {
    if events != [] {
      StrandedForever(m, p, key, events[..|events| - 1], maxSkip);
      var before := LocalRun(m, p, events[..|events| - 1], maxSkip).value;
      match events[|events| - 1]
      case Sends(newKey, payload) => StrandedSends(before, p, key, newKey, payload, maxSkip);
      case Receives(msg) => StrandedReceives(before, p, key, msg, maxSkip);
    }
  }

  lemma WaitingHasSent(st: Start, counts: seq<nat>, m: Manager, p: Party)
    requires PartyInv(st, counts, m, p) && OwnRatchet(m.n.i, p) && forall r | 0 <= r < |counts| :: counts[r] >= 1
    ensures m.n.j > 0 || (p == U && m.n.i == 0)
    ensures StartInv(st) ==> m.pairs.theirEcdh != Ratchet(m.n.i)
  {
  }

  /** A message whose authenticator is not under any derived key is accepted in no state, and where its
      outcome is defined it is rejected; so against a side that waits for a ratchet with a new
      exchange there is always one that erases. */
  lemma BadAuthenticatorErases(m: Manager, p: Party, b: Body, maxSkip: nat) returns (msg: DataMessage)
    ensures msg.body == b && (Receive(m, msg, maxSkip).Rejected? <==> !NeedsErased(m, b))
    ensures !Receive(m, msg, maxSkip).Accepted?
    ensures m.n.i % 3 == 0 && OwnRatchet(m.n.i, p) && m.pairs.ourDh.priv.Some? && StartsRatchet(m, b) ==>
              !Harmless(m, p, msg.body)
  {
    msg := DataMessage(b, Authenticator(Zeros, b), []);
  }

  lemma ErasureLeavesStranded(st: Start, counts: seq<nat>, m: Manager, p: Party, msg: DataMessage, maxSkip: nat)
    requires StartInv(st) && PartyInv(st, counts, m, p) && forall r | 0 <= r < |counts| :: counts[r] >= 1
    requires m.skipped == [] && Receive(m, msg, maxSkip).Rejected? && !Harmless(m, p, msg.body)
    ensures Stranded(Receive(m, msg, maxSkip).after, p, Ratchet(m.n.i))
  {
    RejectedState(m, msg, maxSkip);
    WaitingHasSent(st, counts, m, p);
  }

  /** One rejected message that is not harmless ends the conversation in one direction: whatever this side
      sends and receives afterwards, as long as that is defined, it accepts no message of the
      ratchet it was waiting for, the genuine ones among them; receiving one is not defined. */
  lemma ErasureStrands(st: Start, s: Session, p: Party, msg: DataMessage, events: seq<Local>, genuine: DataMessage,
                       maxSkip: nat)
    requires Reachable(st, s, maxSkip) && s.Of(p).skipped == [] && Receive(s.Of(p), msg, maxSkip).Rejected?
    requires !Harmless(s.Of(p), p, msg.body) && genuine.body.ecdh == Ratchet(s.Of(p).n.i)
    ensures var after := LocalRun(Receive(s.Of(p), msg, maxSkip).after, p, events, maxSkip);
            after.Some? ==> Receive(after.value, genuine, maxSkip) == Undefined
  {
    var m := HarmStrands(st, s, p, msg, maxSkip);
    StrandedRefuses(m, p, events, genuine, maxSkip);
  }

  lemma HarmStrands(st: Start, s: Session, p: Party, msg: DataMessage, maxSkip: nat) returns (m: Manager)
    requires Reachable(st, s, maxSkip) && s.Of(p).skipped == [] && Receive(s.Of(p), msg, maxSkip).Rejected?
    requires !Harmless(s.Of(p), p, msg.body)
    ensures m == Receive(s.Of(p), msg, maxSkip).after && Stranded(m, p, Ratchet(s.Of(p).n.i))
  {
    PartyOf(st, s, maxSkip, p);
    ErasureLeavesStranded(st, s.counts, s.Of(p), p, msg, maxSkip);
    m := Receive(s.Of(p), msg, maxSkip).after;
  }

  lemma StrandedRefuses(m: Manager, p: Party, events: seq<Local>, genuine: DataMessage, maxSkip: nat)
    requires Stranded(m, p, genuine.body.ecdh)
    ensures var after := LocalRun(m, p, events, maxSkip);
            after.Some? ==> Receive(after.value, genuine, maxSkip) == Undefined
  {
    if LocalRun(m, p, events, maxSkip).Some? {
      StrandedForever(m, p, genuine.body.ecdh, events, maxSkip);
      StrandedUndefined(LocalRun(m, p, events, maxSkip).value, p, genuine.body.ecdh, genuine, maxSkip);
    }
  }
}
