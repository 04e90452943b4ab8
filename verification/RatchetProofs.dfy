/** The invariant of honest sessions: it holds at the start and every event keeps it. */
module RatchetProofs {
  import opened Prelude
  import opened Keys
  import opened KeyManager
  import opened RatchetSession

  /** A side at the start of a session. */
  lemma InitialSide(st: Start, m: Manager, p: Party)
    requires InitialManager(m, st.root) && (p == T ==> m.pairs.theirEcdh == st.ec && m.pairs.theirDh == st.dh)
    requires p == U ==>
               m.pairs == KeyPairs(EcPair(Live(st.ec), st.ec), DhPair(Some(st.dh), st.dh), st.uTheirEc, st.uTheirDh)
    ensures PartyInv(st, [], m, p)
    ensures StoreInv(st, [], {}, m.n, m.skipped, p) && GoneInv([], {}, m.n, p)
  {
    assert LastReceived(0, T) == -1 && LastReceived(0, U) == -2;
  }

  lemma InitialInv(st: Start, s: Session)
    requires Initial(st, s)
    ensures Inv(st, s)
  {
    InitialSide(st, s.t, T);
    InitialSide(st, s.u, U);
    assert s.Gone() == {};
    assert SideInv(st, s, T) && SideInv(st, s, U);
  }

  // -------------------------------------------------------------- sending

  lemma ChainAtOne(c: Term)
    ensures ChainAt(c, 1) == NextChain(c)
  {
    assert ChainAt(c, 0) == c;
  }

  lemma OpenedKeys(st: Start, n: Counters, pairs: KeyPairs, chains: Chains, p: Party)
    requires !OwnRatchet(n.i, p)
    requires OwnKeysInv(st, n.i, pairs, p) && TheirKeysInv(st, n.i, pairs, p) && chains.rootKey == RootOf(st, n.i)
    ensures var own := GenerateEphemeralKeys(n.i, pairs, Ratchet(n.i));
            && EnterNewRatchet(n.i, own, own.theirEcdh, own.theirDh, Zeros, chains.rootKey)
               == Some(Mixed(RootOf(st, n.i + 1), ChainOf(st, n.i)))
  {
    var own := GenerateEphemeralKeys(n.i, pairs, Ratchet(n.i));
    assert BraceKey(n.i, own.ourDh.priv, own.theirDh, Zeros) == Some(BraceOf(st, n.i));
  }

  /** Opening a ratchet makes it the own one; what was received from last stays. */
  lemma TurnTaken(i: nat, p: Party)
    requires !OwnRatchet(i, p)
    ensures OwnRatchet(i + 1, p) && LastReceived(i + 1, p) == LastReceived(i, p) == i - 1
  {
  }

  lemma OpenedDh(st: Start, i: nat, pairs: KeyPairs, p: Party)
    requires !OwnRatchet(i, p) && OwnKeysInv(st, i, pairs, p)
    ensures i > 0 || i % 3 == 0
    ensures GenerateEphemeralKeys(i, pairs, Ratchet(i)).ourDh
            == DhPair(if (i + 1) % 3 == 2 then None else Some(DhOf(st, i)), DhOf(st, i))
  {
  }

  lemma OpenedPairs(st: Start, i: nat, pairs: KeyPairs, p: Party)
    requires !OwnRatchet(i, p)
    requires OwnKeysInv(st, i, pairs, p) && TheirKeysInv(st, i, pairs, p)
    ensures var own := GenerateEphemeralKeys(i, pairs, Ratchet(i));
            OwnKeysInv(st, i + 1, own, p) && TheirKeysInv(st, i + 1, own, p)
            && own.ourEcdh.pub == Ratchet(i) && own.ourDh.pub == DhOf(st, i)
  {
    TurnTaken(i, p);
    OpenedDh(st, i, pairs, p);
  }

  lemma OpenedCounters(counts: seq<nat>, n: Counters, p: Party)
    requires CountersInv(counts, n, p) && !OwnRatchet(n.i, p)
    ensures n.i == |counts| && n.j == 0 && p == SenderOf(n.i)
    ensures n.pn == Count(counts, n.i - 2)
    ensures CountersInv(counts + [1], n.(i := n.i + 1, j := 1), p)
    ensures OwnRatchet(n.i + 1, p) && LastReceived(n.i + 1, p) == LastReceived(n.i, p) == n.i - 1
  {
  }

  lemma OpenedChains(st: Start, n: Counters, c: Chains, p: Party)
    requires ChainsInv(st, n, c, p) && !OwnRatchet(n.i, p)
    ensures ChainsInv(st, n.(i := n.i + 1, j := 1), Chains(RootOf(st, n.i + 1), NextChain(ChainOf(st, n.i)), c.chainR), p)
  {
    ChainAtOne(ChainOf(st, n.i));
    TurnTaken(n.i, p);
  }

  /** A side whose turn it is opens exactly the next ratchet of the schedule. */
  lemma SendOpensRatchet(st: Start, counts: seq<nat>, m: Manager, p: Party, payload: string)
    requires PartyInv(st, counts, m, p)
    requires !OwnRatchet(m.n.i, p)
    ensures m.n.i == |counts| && p == SenderOf(m.n.i) && OwnRatchet(m.n.i + 1, p)
    ensures Send(m, Ratchet(m.n.i), payload).Some?
    ensures var sent := Send(m, Ratchet(m.n.i), payload).value;
            && SentOf(st, counts, m.n.i, 0, sent)
            && sent.msg.revealed == Reversed(m.oldMacKeys) && sent.after.oldMacKeys == []
            && sent.msg.body.payload == payload && sent.msg.body.ratchetId == m.n.i
            && sent.after.skipped == m.skipped
            && sent.after.n == m.n.(i := m.n.i + 1, j := 1)
            && PartyInv(st, counts + [1], sent.after, p)
  {
    OpenedCounters(counts, m.n, p);
    OpenedKeys(st, m.n, m.pairs, m.chains, p);
    OpenedPairs(st, m.n.i, m.pairs, p);
    OpenedChains(st, m.n, m.chains, p);
    assert KeysOf(st, m.n.i, 0) == KeysAt(ChainOf(st, m.n.i));
  }

  lemma ContinuedCounters(counts: seq<nat>, n: Counters, p: Party)
    requires CountersInv(counts, n, p) && OwnRatchet(n.i, p) && n.i > 0 && n.j > 0
    ensures SenderOf(n.i - 1) == p && n.i - 1 < |counts| <= n.i + 1 && n.j == counts[n.i - 1]
    ensures n.pn == Count(counts, n.i - 3)
    ensures CountersInv(Counted(counts, n.i - 1), n.(j := n.j + 1), p)
  {
  }

  lemma ContinuedChains(st: Start, n: Counters, c: Chains, p: Party)
    requires ChainsInv(st, n, c, p) && OwnRatchet(n.i, p) && n.i > 0
    ensures c.chainS == ChainAt(ChainOf(st, n.i - 1), n.j)
    ensures ChainsInv(st, n.(j := n.j + 1), c.(chainS := NextChain(c.chainS)), p)
  {
    assert ChainAt(ChainOf(st, n.i - 1), n.j + 1) == NextChain(ChainAt(ChainOf(st, n.i - 1), n.j));
  }

  /** Any other send continues the chain of the ratchet the side already owns. */
  lemma SendContinuesRatchet(st: Start, counts: seq<nat>, m: Manager, p: Party, newKey: KeyId, payload: string)
    requires PartyInv(st, counts, m, p)
    requires OwnRatchet(m.n.i, p) && m.n.i > 0 && m.n.j > 0
    ensures SenderOf(m.n.i - 1) == p && m.n.i - 1 < |counts| <= m.n.i + 1 && m.n.j == counts[m.n.i - 1]
    ensures Send(m, newKey, payload).Some?
    ensures var sent := Send(m, newKey, payload).value;
            && SentOf(st, counts, m.n.i - 1, m.n.j, sent)
            && sent.msg.revealed == [] && sent.after.oldMacKeys == m.oldMacKeys
            && sent.msg.body.payload == payload && sent.msg.body.ratchetId == m.n.i
            && sent.after.skipped == m.skipped
            && sent.after.n == m.n.(j := m.n.j + 1)
            && PartyInv(st, Counted(counts, m.n.i - 1), sent.after, p)
  {
    ContinuedCounters(counts, m.n, p);
    ContinuedChains(st, m.n, m.chains, p);
  }

  /** A send of one side leaves the other side's part of the invariant alone. */
  lemma OtherSideCounters(counts: seq<nat>, n: Counters, p: Party, r: nat)
    requires CountersInv(counts, n, p)
    requires SenderOf(r) == Other(p) && r <= |counts| <= r + 2
    requires r == |counts| ==> n.i == |counts| && OwnRatchet(n.i, p)
    ensures CountersInv(Counted(counts, r), n, p)
    ensures forall r', id: nat :: Passed(counts, n, p, r', id) <==> Passed(Counted(counts, r), n, p, r', id)
  {
  }

  lemma SameStore(st: Start, store: seq<Skipped>, want: (nat, nat) -> bool, want': (nat, nat) -> bool)
    requires StoreHolds(st, store, want)
    requires forall r: nat, id: nat :: want(r, id) <==> want'(r, id)
    ensures StoreHolds(st, store, want')
  {
  }

  lemma OtherSideUntouched(st: Start, s: Session, s': Session, p: Party, r: nat)
    requires SideInv(st, s, p)
    requires SenderOf(r) == Other(p) && r <= |s.counts| <= r + 2
    requires r == |s.counts| ==> s.Of(p).n.i == |s.counts| && OwnRatchet(s.Of(p).n.i, p)
    requires s'.Of(p) == s.Of(p) && s'.MacsOf(p) == s.MacsOf(p)
    requires s'.counts == Counted(s.counts, r) && s'.Gone() == s.Gone()
    ensures SideInv(st, s', p)
  {
    OtherSideCounters(s.counts, s.Of(p).n, p, r);
    SameStore(st, s.Of(p).skipped, Missing(s.counts, s.Gone(), s.Of(p).n, p),
              Missing(s'.counts, s'.Gone(), s.Of(p).n, p));
  }

  /** The sender's own store and deliveries only concern the other side's ratchets. */
  lemma SenderPassed(counts: seq<nat>, n: Counters, n': Counters, p: Party, r: nat)
    requires SenderOf(r) == p && r <= |counts|
    requires LastReceived(n'.i, p) == LastReceived(n.i, p) && n'.k == n.k
    ensures forall r', id: nat :: Passed(counts, n, p, r', id) <==> Passed(Counted(counts, r), n', p, r', id)
  {
  }

  lemma SenderSide(st: Start, s: Session, s': Session, p: Party, r: nat)
    requires SideInv(st, s, p) && SenderOf(r) == p && r <= |s.counts|
    requires s'.counts == Counted(s.counts, r) && s'.Gone() == s.Gone()
    requires PartyInv(st, s'.counts, s'.Of(p), p)
    requires s'.Of(p).skipped == s.Of(p).skipped && s'.Of(p).n.k == s.Of(p).n.k
    requires LastReceived(s'.Of(p).n.i, p) == LastReceived(s.Of(p).n.i, p)
    requires MacsInv(s'.Of(p), s'.MacsOf(p))
    ensures SideInv(st, s', p)
  {
    SenderPassed(s.counts, s.Of(p).n, s'.Of(p).n, p, r);
    SameStore(st, s.Of(p).skipped, Missing(s.counts, s.Gone(), s.Of(p).n, p),
              Missing(s'.counts, s'.Gone(), s'.Of(p).n, p));
  }

  lemma LogGrows(st: Start, counts: seq<nat>, log: map<(nat, nat), Sent>, r: nat, sent: Sent)
    requires LogInv(st, counts, log)
    requires r <= |counts| <= r + 2 && SentOf(st, counts, r, Count(counts, r), sent)
    ensures LogInv(st, Counted(counts, r), log[(r, Count(counts, r)) := sent])
  {
    var counts', log' := Counted(counts, r), log[(r, Count(counts, r)) := sent];
    assert Count(counts', r) == Count(counts, r) + 1;
    forall r': nat, id: nat | (r', id) in log'
      ensures SentOf(st, counts', r', id, log'[(r', id)])
    {
      assert Count(counts', r' - 2) == Count(counts, r' - 2);
    }
  }

  lemma {:induction false} ReversedKeepsMultiset<X>(s: seq<X>)
    ensures multiset(Reversed(s)) == multiset(s)
  {
    if s != [] {
      ReversedKeepsMultiset(s[1..]);
      assert s == [s[0]] + s[1..];
    }
  }

  /** What a send does to the sending side. */
  predicate Effect(st: Start, counts: seq<nat>, m: Manager, p: Party, r: nat, sent: Sent) {
    && SenderOf(r) == p && r <= |counts| <= r + 2 && SentOf(st, counts, r, Count(counts, r), sent)
    && PartyInv(st, Counted(counts, r), sent.after, p)
    && sent.after.skipped == m.skipped && sent.after.n.k == m.n.k && sent.after.n.i >= m.n.i
    && LastReceived(sent.after.n.i, p) == LastReceived(m.n.i, p)
    && multiset(m.oldMacKeys) == multiset(sent.msg.revealed) + multiset(sent.after.oldMacKeys)
  }

  lemma ContinuedEffect(st: Start, counts: seq<nat>, m: Manager, p: Party, r: nat, sent: Sent)
    requires OwnRatchet(m.n.i, p) && m.n.i == r + 1 && SenderOf(r) == p && r < |counts| <= r + 2
    requires m.n.j == counts[r] && SentOf(st, counts, r, m.n.j, sent)
    requires sent.msg.revealed == [] && sent.after.oldMacKeys == m.oldMacKeys && sent.after.skipped == m.skipped
    requires sent.after.n == m.n.(j := m.n.j + 1) && PartyInv(st, Counted(counts, r), sent.after, p)
    ensures Effect(st, counts, m, p, r, sent)
  {
  }

  lemma OpenedEffect(st: Start, counts: seq<nat>, m: Manager, p: Party, r: nat, sent: Sent)
    requires !OwnRatchet(m.n.i, p) && m.n.i == r == |counts| && SenderOf(r) == p && SentOf(st, counts, r, 0, sent)
    requires sent.msg.revealed == Reversed(m.oldMacKeys) && sent.after.oldMacKeys == []
    requires sent.after.skipped == m.skipped && sent.after.n == m.n.(i := r + 1, j := 1)
    requires PartyInv(st, counts + [1], sent.after, p)
    ensures Effect(st, counts, m, p, r, sent)
  {
    ReversedKeepsMultiset(m.oldMacKeys);
  }

  lemma OwnHasSent(counts: seq<nat>, n: Counters, p: Party)
    requires CountersInv(counts, n, p) && OwnRatchet(n.i, p) && (p == T || n.i > 0)
    requires forall r | 0 <= r < |counts| :: counts[r] >= 1
    ensures n.i > 0 && n.j > 0
  {
  }

  lemma ContinueOwn(st: Start, counts: seq<nat>, m: Manager, p: Party, newKey: KeyId, payload: string)
    returns (r: nat, sent: Sent)
    requires PartyInv(st, counts, m, p) && OwnRatchet(m.n.i, p) && m.n.i > 0 && m.n.j > 0
    ensures Send(m, newKey, payload) == Some(sent) && Effect(st, counts, m, p, r, sent)
    ensures sent.msg.body.payload == payload
  {
    r := m.n.i - 1;
    SendContinuesRatchet(st, counts, m, p, newKey, payload);
    sent := Send(m, newKey, payload).value;
    ContinuedEffect(st, counts, m, p, r, sent);
  }

  lemma OpenNext(st: Start, counts: seq<nat>, m: Manager, p: Party, newKey: KeyId, payload: string)
    returns (r: nat, sent: Sent)
    requires PartyInv(st, counts, m, p) && !OwnRatchet(m.n.i, p) && newKey == Ratchet(m.n.i)
    ensures Send(m, newKey, payload) == Some(sent) && Effect(st, counts, m, p, r, sent)
    ensures sent.msg.body.payload == payload
    ensures r == m.n.i == |counts|
  {
    r := m.n.i;
    SendOpensRatchet(st, counts, m, p, payload);
    sent := Send(m, newKey, payload).value;
    OpenedEffect(st, counts, m, p, r, sent);
  }

  lemma SendEffect(st: Start, counts: seq<nat>, m: Manager, p: Party, payload: string) returns (r: nat, sent: Sent)
    requires PartyInv(st, counts, m, p) && (p == T || m.n.i > 0)
    requires forall r | 0 <= r < |counts| :: counts[r] >= 1
    ensures Send(m, Ratchet(|counts|), payload) == Some(sent)
    ensures Effect(st, counts, m, p, r, sent) && sent.msg.body.payload == payload
  {
    if OwnRatchet(m.n.i, p) {
      OwnHasSent(counts, m.n, p);
      r, sent := ContinueOwn(st, counts, m, p, Ratchet(|counts|), payload);
    } else {
      r, sent := OpenNext(st, counts, m, p, Ratchet(m.n.i), payload);
    }
  }

  /** How a session s' with one more message sent relates to s. */
  predicate SentMore(s: Session, s': Session, p: Party, r: nat, sent: Sent) {
    && s'.Of(p) == sent.after && s'.Of(Other(p)) == s.Of(Other(p))
    && s'.MacsOf(p) == s.MacsOf(p).(revealed := s.MacsOf(p).revealed + multiset(sent.msg.revealed))
    && s'.MacsOf(Other(p)) == s.MacsOf(Other(p))
    && s'.counts == Counted(s.counts, r) && s'.log == s.log[(r, sent.msg.body.id) := sent]
    && s'.delivered == s.delivered && s'.lost == s.lost && s'.uReady == s.uReady
  }

  lemma SendStepShape(s: Session, p: Party, payload: string, r: nat, sent: Sent)
    requires s.MaySend(p) && Send(s.Of(p), Ratchet(|s.counts|), payload) == Some(sent)
    requires sent.msg.body.ecdh == Ratchet(r)
    ensures SentMore(s, SendStep(s, p, payload), p, r, sent)
  {
  }

  lemma SentMoreSender(st: Start, s: Session, s': Session, p: Party, r: nat, sent: Sent)
    requires SideInv(st, s, p) && SentMore(s, s', p, r, sent)
    requires SenderOf(r) == p && r <= |s.counts|
    requires PartyInv(st, s'.counts, sent.after, p)
    requires sent.after.skipped == s.Of(p).skipped && sent.after.n.k == s.Of(p).n.k
    requires LastReceived(sent.after.n.i, p) == LastReceived(s.Of(p).n.i, p)
    requires multiset(s.Of(p).oldMacKeys) == multiset(sent.msg.revealed) + multiset(sent.after.oldMacKeys)
    ensures SideInv(st, s', p)
  {
    assert MacsInv(s'.Of(p), s'.MacsOf(p));
    SenderSide(st, s, s', p, r);
  }

  lemma SentMoreOther(st: Start, s: Session, s': Session, p: Party, r: nat, sent: Sent)
    requires SideInv(st, s, T) && SideInv(st, s, U) && SentMore(s, s', p, r, sent)
    requires SenderOf(r) == p && r <= |s.counts| <= r + 2
    ensures SideInv(st, s', Other(p))
  {
    if r == |s.counts| {
      OtherSideInStep(s.counts, s.t.n, s.u.n, p, r);
    }
    OtherSideUntouched(st, s, s', Other(p), r);
  }

  lemma SendKeepsInv(st: Start, s: Session, p: Party, payload: string)
    requires Inv(st, s)
    ensures Inv(st, SendStep(s, p, payload))
  {
    if s.MaySend(p) {
      var s' := SendStep(s, p, payload);
      var r, sent := SendKeepsSides(st, s, p, payload);
      LogGrows(st, s.counts, s.log, r, sent);
    }
  }

  lemma SendSides(st: Start, s: Session, s': Session, p: Party, r: nat, sent: Sent)
    requires SideInv(st, s, T) && SideInv(st, s, U) && SentMore(s, s', p, r, sent)
    requires Effect(st, s.counts, s.Of(p), p, r, sent)
    ensures SideInv(st, s', p) && SideInv(st, s', Other(p))
  {
    SentMoreSender(st, s, s', p, r, sent);
    SentMoreOther(st, s, s', p, r, sent);
  }

  lemma SendKeepsBoth(st: Start, s: Session, p: Party, payload: string) returns (r: nat, sent: Sent)
    requires SideInv(st, s, T) && SideInv(st, s, U) && s.MaySend(p) && (p == T || s.Of(p).n.i > 0)
    requires forall r | 0 <= r < |s.counts| :: s.counts[r] >= 1
    ensures Send(s.Of(p), Ratchet(|s.counts|), payload) == Some(sent) && Effect(st, s.counts, s.Of(p), p, r, sent)
    ensures SentMore(s, SendStep(s, p, payload), p, r, sent) && sent.msg.body.payload == payload
    ensures SideInv(st, SendStep(s, p, payload), p) && SideInv(st, SendStep(s, p, payload), Other(p))
  {
    assert SideInv(st, s, p);
    r, sent := SendEffect(st, s.counts, s.Of(p), p, payload);
    SendStepShape(s, p, payload, r, sent);
    SendSides(st, s, SendStep(s, p, payload), p, r, sent);
  }

  lemma Unpacked(st: Start, s: Session, p: Party)
    requires Inv(st, s) && s.MaySend(p)
    ensures SideInv(st, s, T) && SideInv(st, s, U) && (p == T || s.Of(p).n.i > 0)
    ensures forall r | 0 <= r < |s.counts| :: s.counts[r] >= 1
  {
  }

  lemma SendKeepsSides(st: Start, s: Session, p: Party, payload: string) returns (r: nat, sent: Sent)
    requires Inv(st, s) && s.MaySend(p)
    ensures var s' := SendStep(s, p, payload);
            SideInv(st, s', p) && SideInv(st, s', Other(p)) && SentMore(s, s', p, r, sent)
    ensures sent.msg.body.payload == payload
    ensures Send(s.Of(p), Ratchet(|s.counts|), payload) == Some(sent) && Effect(st, s.counts, s.Of(p), p, r, sent)
  {
    Unpacked(st, s, p);
    r, sent := SendKeepsBoth(st, s, p, payload);
  }

  /** When one side opens a ratchet the other one is waiting for it. */
  lemma OtherSideInStep(counts: seq<nat>, nt: Counters, nu: Counters, p: Party, r: nat)
    requires CountersInv(counts, nt, T) && CountersInv(counts, nu, U)
    requires r == |counts| && SenderOf(r) == p
    ensures var n := if p == T then nu else nt; n.i == |counts| && OwnRatchet(n.i, Other(p))
  {
  }
}
