/** Honest runs that reach the situations the failure results speak of, event by event. */
module RatchetWitness {
  import opened Prelude
  import opened Keys
  import opened KeyManager
  import opened RatchetSession
  import opened RatchetProofs
  import opened RatchetReceive
  import opened RatchetDelivery
  import opened RatchetTheorems
  import opened RatchetGaps
  import opened RatchetRejection

  /** A reachable session, as far as counting goes. */
  ghost predicate At(st: Start, s: Session, maxSkip: nat, counts: seq<nat>, t: Counters, u: Counters,
                     delivered: set<(nat, nat)>)
  {
    && Reachable(st, s, maxSkip) && StartInv(st) && st.uTheirEc == Dake(2)
    && s.counts == counts && s.t.n == t && s.u.n == u && s.delivered == delivered && s.lost == {}
    && (s.uReady <==> u.i > 0)
  }

  lemma StartAt(maxSkip: nat) returns (st: Start, s: Session)
    ensures At(st, s, maxSkip, [], Counters(0, 0, 0, 0), Counters(0, 0, 0, 0), {})
  {
    st := Start(Dake(0), Dake(1), Zeros, Dake(2), Dake(3));
    var own := KeyPairs(EcPair(Live(Dake(0)), Dake(0)), DhPair(Some(Dake(1)), Dake(1)), Dake(2), Dake(3));
    var their := KeyPairs(EcPair(Live(Dake(2)), Dake(2)), DhPair(None, Dake(3)), Dake(0), Dake(1));
    var n, chains := Counters(0, 0, 0, 0), Chains(Zeros, Zeros, Zeros);
    var scratch, none := Scratch(Zeros, Zeros, Zeros), Macs(multiset{}, multiset{}, multiset{});
    s := Session(Manager(their, n, chains, scratch, [], []), Manager(own, n, chains, scratch, [], []),
                 false, [], map[], {}, {}, none, none);
    assert Initial(st, s) && HonestRun(s, [], maxSkip) && s == Run(s, [], maxSkip);
  }

  function NOf(t: Counters, u: Counters, p: Party): Counters { if p == T then t else u }

  /** How the sender's counters move. */
  predicate Moved(counts: seq<nat>, n: Counters, n': Counters, p: Party, r: nat) {
    && (!OwnRatchet(n.i, p) ==> n' == n.(i := n.i + 1, j := 1) && r == |counts|)
    && (OwnRatchet(n.i, p) && n.i > 0 && n.j > 0 ==> n' == n.(j := n.j + 1) && r == n.i - 1)
  }

  lemma SendEffects(st: Start, s: Session, p: Party) returns (r: nat, sent: Sent)
    requires Inv(st, s) && s.MaySend(p)
    ensures SentMore(s, SendStep(s, p, ""), p, r, sent) && Moved(s.counts, s.Of(p).n, sent.after.n, p, r)
  {
    r, sent := SendKeepsSides(st, s, p, "");
    assert SideInv(st, s, p);
    CountedSend(st, s.counts, s.Of(p), p, sent, r);
  }

  lemma SendReaches(st: Start, s: Session, maxSkip: nat, p: Party) returns (s': Session)
    requires Reachable(st, s, maxSkip)
    ensures s' == SendStep(s, p, "") && Reachable(st, s', maxSkip) && Inv(st, s)
  {
    ReachableInv(st, s, maxSkip);
    ReachableStep(st, s, SendEvent(p, ""), maxSkip);
    s' := SendStep(s, p, "");
  }

  /** A send leaves everything but the sender's counters and the counts. */
  lemma SendMoves(st: Start, s: Session, maxSkip: nat, p: Party) returns (s': Session, r: nat, sent: Sent)
    requires Reachable(st, s, maxSkip) && s.MaySend(p)
    ensures Reachable(st, s', maxSkip) && SentMore(s, s', p, r, sent)
    ensures Moved(s.counts, s.Of(p).n, sent.after.n, p, r)
  {
    s' := SendReaches(st, s, maxSkip, p);
    r, sent := SendEffects(st, s, p);
  }

  /** p opens its next ratchet. */
  lemma OpenAt(st: Start, s: Session, maxSkip: nat, counts: seq<nat>, t: Counters, u: Counters,
               delivered: set<(nat, nat)>, p: Party) returns (s': Session)
    requires At(st, s, maxSkip, counts, t, u, delivered) && (p == T || u.i > 0) && !OwnRatchet(NOf(t, u, p).i, p)
    ensures var n := NOf(t, u, p).(i := NOf(t, u, p).i + 1, j := 1);
            At(st, s', maxSkip, counts + [1], if p == T then n else t, if p == T then u else n, delivered)
  {
    var r, sent;
    s', r, sent := SendMoves(st, s, maxSkip, p);
  }

  /** p sends one more message of the ratchet it owns. */
  lemma ContinueAt(st: Start, s: Session, maxSkip: nat, counts: seq<nat>, t: Counters, u: Counters,
                   delivered: set<(nat, nat)>, p: Party) returns (s': Session)
    requires At(st, s, maxSkip, counts, t, u, delivered)
    requires OwnRatchet(NOf(t, u, p).i, p) && NOf(t, u, p).i > 0 && NOf(t, u, p).j > 0
    ensures var n := NOf(t, u, p).(j := NOf(t, u, p).j + 1);
            At(st, s', maxSkip, Counted(counts, NOf(t, u, p).i - 1), if p == T then n else t, if p == T then u else n,
               delivered)
  {
    var r, sent;
    s', r, sent := SendMoves(st, s, maxSkip, p);
  }

  /** The counters a send leaves. */
  lemma CountedSend(st: Start, counts: seq<nat>, m: Manager, p: Party, sent: Sent, r: nat)
    requires PartyInv(st, counts, m, p) && Send(m, Ratchet(|counts|), "") == Some(sent)
    requires SentOf(st, counts, r, Count(counts, r), sent)
    ensures Moved(counts, m.n, sent.after.n, p, r)
  {
    if !OwnRatchet(m.n.i, p) {
      SendOpensRatchet(st, counts, m, p, "");
    } else if m.n.i > 0 && m.n.j > 0 {
      SendContinuesRatchet(st, counts, m, p, Ratchet(|counts|), "");
    }
  }

  /** What a session s' looks like after a first message of the awaited ratchet. */
  predicate Entered(s: Session, s': Session, r: nat, id: nat) {
    var p := Other(SenderOf(r));
    && s'.Of(p).n == Counters(r + 1, 0, id + 1, s.Of(p).n.j) && s'.Of(Other(p)) == s.Of(Other(p))
    && s'.counts == s.counts && s'.delivered == s.delivered + {(r, id)} && s'.lost == s.lost
    && s'.uReady == (s.uReady || p == U)
  }

  /** The message of ratchet r is awaited, with no gap on either chain beyond the limit. */
  predicate Enterable(counts: seq<nat>, n: Counters, r: nat, id: nat, maxSkip: nat) {
    && id < Count(counts, r) && r == n.i
    && !GapTooWide(n.k, maxSkip, Count(counts, r - 2)) && !GapTooWide(0, maxSkip, id)
  }

  lemma EnterEffect(st: Start, s: Session, maxSkip: nat, r: nat, id: nat)
    requires Inv(st, s) && Enterable(s.counts, s.Of(Other(SenderOf(r))).n, r, id, maxSkip)
    ensures HonestEvent(s, DeliverEvent(r, id), maxSkip)
    ensures Entered(s, DeliverStep(s, r, id, maxSkip), r, id)
  {
    var p := Other(SenderOf(r));
    assert SideInv(st, s, p);
    EnterIsHonest(st, s, p, maxSkip, r, id);
    EnterCounters(st, s.counts, s.Of(p), p, r, id, s.log[(r, id)], maxSkip);
    NothingLost(s.Of(p), r, s.log[(r, id)].msg.body, maxSkip);
    EnterShape(s, p, r, id, maxSkip, Receive(s.Of(p), s.log[(r, id)].msg, maxSkip));
  }

  lemma EnterShape(s: Session, p: Party, r: nat, id: nat, maxSkip: nat, receipt: Receipt)
    requires (r, id) in s.log && p == Other(SenderOf(r)) && receipt == Receive(s.Of(p), s.log[(r, id)].msg, maxSkip)
    requires receipt.Accepted? && receipt.after.n == Counters(r + 1, 0, id + 1, s.Of(p).n.j)
    requires LostBy(s.Of(p), r, s.log[(r, id)].msg.body, maxSkip) == {}
    ensures Entered(s, DeliverStep(s, r, id, maxSkip), r, id)
  {
    DeliverStepShape(s, p, r, id, maxSkip);
  }

  lemma EnterMoves(st: Start, s: Session, maxSkip: nat, r: nat, id: nat) returns (s': Session)
    requires Reachable(st, s, maxSkip) && Enterable(s.counts, s.Of(Other(SenderOf(r))).n, r, id, maxSkip)
    ensures Reachable(st, s', maxSkip) && Entered(s, s', r, id)
  {
    ReachableInv(st, s, maxSkip);
    EnterEffect(st, s, maxSkip, r, id);
    s' := DeliverStep(s, r, id, maxSkip);
    ReachableStep(st, s, DeliverEvent(r, id), maxSkip);
  }

  lemma EnterIsHonest(st: Start, s: Session, p: Party, maxSkip: nat, r: nat, id: nat)
    requires Inv(st, s) && SideInv(st, s, p) && p == Other(SenderOf(r)) && r == s.Of(p).n.i && id < Count(s.counts, r)
    requires !GapTooWide(0, maxSkip, id)
    ensures HonestEvent(s, DeliverEvent(r, id), maxSkip)
    ensures StartsRatchet(s.Of(p), s.log[(r, id)].msg.body)
    ensures Awaits(st, s.counts, s.Of(p), p, r, id, maxSkip) && SentOf(st, s.counts, r, id, s.log[(r, id)])
  {
    var m := s.Of(p);
    Standing(s.counts, m.n, p, r, id);
    FoundIffWanted(st, m.skipped, Missing(s.counts, s.Gone(), m.n, p), r, id);
    TheirKeyOfLast(st, m.n.i, m.pairs, p, r);
    assert SentOf(st, s.counts, r, id, s.log[(r, id)]);
    if r >= 2 {
      TheirKeyOfLast(st, m.n.i, m.pairs, p, r - 2);
    }
  }

  lemma EnterCounters(st: Start, counts: seq<nat>, m: Manager, p: Party, r: nat, id: nat, sent: Sent, maxSkip: nat)
    requires SentOf(st, counts, r, id, sent) && Awaits(st, counts, m, p, r, id, maxSkip)
    ensures Receive(m, sent.msg, maxSkip).Accepted?
    ensures Receive(m, sent.msg, maxSkip).after.n == Counters(r + 1, 0, id + 1, m.n.j)
  {
    ReceiveNew(st, counts, m, p, r, id, sent, maxSkip);
  }

  lemma NothingLost(m: Manager, r: nat, b: Body, maxSkip: nat)
    requires !GapTooWide(m.n.k, maxSkip, b.pn)
    ensures LostBy(m, r, b, maxSkip) == {}
  {
  }

  lemma NoGap(maxSkip: nat, k: nat, until: nat)
    requires until <= 1 <= maxSkip < 0x8000_0000 && k <= 1
    ensures !GapTooWide(k, maxSkip, until)
  {
  }

  lemma EnterAt(st: Start, s: Session, maxSkip: nat, counts: seq<nat>, t: Counters, u: Counters,
                delivered: set<(nat, nat)>, r: nat, id: nat) returns (s': Session)
    requires At(st, s, maxSkip, counts, t, u, delivered)
    requires Enterable(counts, NOf(t, u, Other(SenderOf(r))), r, id, maxSkip)
    ensures var p := Other(SenderOf(r)); var n := Counters(r + 1, 0, id + 1, NOf(t, u, p).j);
            At(st, s', maxSkip, counts, if p == T then n else t, if p == T then u else n, delivered + {(r, id)})
  {
    s' := EnterMoves(st, s, maxSkip, r, id);
  }

  // ------------------------------------------------------------- the witnesses

  /** 't' sends three messages more. */
  lemma ThreeMore(st: Start, s0: Session, maxSkip: nat, u: Counters) returns (s: Session)
    requires At(st, s0, maxSkip, [1], Counters(1, 1, 0, 0), u, {})
    ensures At(st, s, maxSkip, [4], Counters(1, 4, 0, 0), u, {})
  {
    var s1 := ContinueAt(st, s0, maxSkip, [1], Counters(1, 1, 0, 0), u, {}, T);
    var s2 := ContinueAt(st, s1, maxSkip, [2], Counters(1, 2, 0, 0), u, {}, T);
    s := ContinueAt(st, s2, maxSkip, [3], Counters(1, 3, 0, 0), u, {}, T);
  }

  /** 'u' answers, and 't' opens ratchet 2. */
  lemma AnswerAndOpen(st: Start, s0: Session, maxSkip: nat, n: nat, got: nat) returns (s: Session)
    requires n >= 1 && At(st, s0, maxSkip, [n], Counters(1, n, 0, 0), Counters(1, 0, got + 1, 0), {(0, got)})
    requires maxSkip < 0x8000_0000
    ensures At(st, s, maxSkip, [n, 1, 1], Counters(3, 1, 1, n), Counters(2, 1, got + 1, 0), {(0, got), (1, 0)})
  {
    var u := Counters(2, 1, got + 1, 0);
    var s1 := OpenAt(st, s0, maxSkip, [n], Counters(1, n, 0, 0), Counters(1, 0, got + 1, 0), {(0, got)}, U);
    assert [n] + [1] == [n, 1];
    var s2 := EnterAt(st, s1, maxSkip, [n, 1], Counters(1, n, 0, 0), u, {(0, got)}, 1, 0);
    assert {(0, got)} + {(1, 0)} == {(0, got), (1, 0)};
    s := OpenAt(st, s2, maxSkip, [n, 1], Counters(2, 0, 1, n), u, {(0, got), (1, 0)}, T);
    assert [n, 1] + [1] == [n, 1, 1];
  }

  /** With a limit of one: 't' sends four messages, of which only the first arrives, 'u' answers, and 't'
      opens ratchet 2. */
  lemma GapRun() returns (st: Start, s: Session)
    ensures At(st, s, 1, [4, 1, 1], Counters(3, 1, 1, 4), Counters(2, 1, 1, 0), {(0, 0), (1, 0)})
  {
    var s0: Session;
    var n := Counters(0, 0, 0, 0);
    st, s0 := StartAt(1);
    var s1 := OpenAt(st, s0, 1, [], n, n, {}, T);
    assert [] + [1] == [1];
    var s2 := ThreeMore(st, s1, 1, n);
    var s3 := EnterAt(st, s2, 1, [4], Counters(1, 4, 0, 0), n, {}, 0, 0);
    assert {} + {(0, 0)} == {(0, 0)};
    s := AnswerAndOpen(st, s3, 1, 4, 0);
  }

  /** Then the first message of ratchet 2 loses the other three. */
  lemma GapOccurs() returns (st: Start, s: Session)
    ensures Reachable(st, s, 1) && LeavesBehind(s, 1, 0, 0, 1) && LeavesBehind(s, 1, 0, 0, 3)
  {
    st, s := GapRun();
    ReachableInv(st, s, 1);
    assert SideInv(st, s, U);
    EnterIsHonest(st, s, U, 1, 2, 0);
  }

  /** 't' sends two messages, of which the second arrives, 'u' answers, 't' sends two of ratchet 2, and the
      first of these arrives. */
  lemma LateRun(maxSkip: nat) returns (st: Start, s: Session)
    requires 1 <= maxSkip < 0x8000_0000
    ensures At(st, s, maxSkip, [2, 1, 2], Counters(3, 2, 1, 2), Counters(3, 0, 1, 1), {(0, 1), (1, 0), (2, 0)})
  {
    var s1: Session;
    st, s1 := LateRunBegins(maxSkip);
    var s2 := AnswerAndOpen(st, s1, maxSkip, 2, 1);
    s := LateRunEnds(st, s2, maxSkip);
  }

  lemma LateRunBegins(maxSkip: nat) returns (st: Start, s: Session)
    requires 1 <= maxSkip < 0x8000_0000
    ensures At(st, s, maxSkip, [2], Counters(1, 2, 0, 0), Counters(1, 0, 2, 0), {(0, 1)})
  {
    var s0: Session;
    var n := Counters(0, 0, 0, 0);
    st, s0 := StartAt(maxSkip);
    var s1 := OpenAt(st, s0, maxSkip, [], n, n, {}, T);
    assert [] + [1] == [1];
    var s2 := ContinueAt(st, s1, maxSkip, [1], Counters(1, 1, 0, 0), n, {}, T);
    s := SecondArrives(st, s2, maxSkip);
  }

  lemma SecondArrives(st: Start, s0: Session, maxSkip: nat) returns (s: Session)
    requires 1 <= maxSkip < 0x8000_0000
    requires At(st, s0, maxSkip, [2], Counters(1, 2, 0, 0), Counters(0, 0, 0, 0), {})
    ensures At(st, s, maxSkip, [2], Counters(1, 2, 0, 0), Counters(1, 0, 2, 0), {(0, 1)})
  {
    NoGap(maxSkip, 0, 0);
    NoGap(maxSkip, 0, 1);
    assert Enterable([2], Counters(0, 0, 0, 0), 0, 1, maxSkip);
    s := EnterAt(st, s0, maxSkip, [2], Counters(1, 2, 0, 0), Counters(0, 0, 0, 0), {}, 0, 1);
    assert {} + {(0, 1)} == {(0, 1)};
  }

  lemma LateRunEnds(st: Start, s0: Session, maxSkip: nat) returns (s: Session)
    requires 1 <= maxSkip < 0x8000_0000
    requires At(st, s0, maxSkip, [2, 1, 1], Counters(3, 1, 1, 2), Counters(2, 1, 2, 0), {(0, 1), (1, 0)})
    ensures At(st, s, maxSkip, [2, 1, 2], Counters(3, 2, 1, 2), Counters(3, 0, 1, 1), {(0, 1), (1, 0), (2, 0)})
  {
    var u := Counters(2, 1, 2, 0);
    var s1 := ContinueAt(st, s0, maxSkip, [2, 1, 1], Counters(3, 1, 1, 2), u, {(0, 1), (1, 0)}, T);
    assert [2, 1, 1][2 := 2] == [2, 1, 2];
    s := ThirdArrives(st, s1, maxSkip, 1, 2);
  }

  /** Then the first message of ratchet 0 is late, and the second of ratchet 2 follows on the chain in use. */
  ghost predicate LateThenNext(s: Session, maxSkip: nat) {
    && (0, 0) in s.log && (2, 1) in s.log && (0, 0) !in s.Gone() && (2, 1) !in s.Gone()
    && FindSkipped(s.u.skipped, Ratchet(0), 0).Some?
    && s.u.pairs.theirEcdh == Ratchet(2) && s.u.n == Counters(3, 0, 1, 1) && !GapTooWide(1, maxSkip, 1)
  }

  lemma LateFollows(st: Start, s: Session, maxSkip: nat)
    requires 1 <= maxSkip < 0x8000_0000
    requires At(st, s, maxSkip, [2, 1, 2], Counters(3, 2, 1, 2), Counters(3, 0, 1, 1), {(0, 1), (1, 0), (2, 0)})
    ensures LateThenNext(s, maxSkip)
  {
    ReachableInv(st, s, maxSkip);
    LateCounts(s.counts, s.u.n);
    LateNotGone(s.delivered, s.lost);
    assert SideInv(st, s, U);
    LateStored(st, s.counts, s.Gone(), s.u, s.u.n);
    NoGap(maxSkip, 1, 1);
    LoggedIffSent(st, s, 0, 0);
    LoggedIffSent(st, s, 2, 1);
  }

  lemma LateCounts(counts: seq<nat>, n: Counters)
    requires counts == [2, 1, 2] && n == Counters(3, 0, 1, 1)
    ensures Count(counts, 0) == 2 && Count(counts, 2) == 2 && Passed(counts, n, U, 0, 0)
  {
    assert LastReceived(3, U) == 2;
  }

  lemma LateNotGone(delivered: set<(nat, nat)>, lost: set<(nat, nat)>)
    requires delivered == {(0, 1), (1, 0), (2, 0)} && lost == {}
    ensures (0, 0) !in delivered + lost && (2, 1) !in delivered + lost
  {
  }

  lemma LoggedIffSent(st: Start, s: Session, r: nat, id: nat)
    requires LogInv(st, s.counts, s.log)
    ensures (r, id) in s.log <==> id < Count(s.counts, r)
  {
  }

  lemma LateStored(st: Start, counts: seq<nat>, gone: set<(nat, nat)>, m: Manager, n: Counters)
    requires StartInv(st) && m.n == n && n.i == 3 && PartyInv(st, counts, m, U)
    requires StoreInv(st, counts, gone, n, m.skipped, U) && Passed(counts, n, U, 0, 0) && (0, 0) !in gone
    ensures FindSkipped(m.skipped, Ratchet(0), 0).Some? && m.pairs.theirEcdh == Ratchet(2)
  {
    FoundIffWanted(st, m.skipped, Missing(counts, gone, n, U), 0, 0);
    TheirKeyOfLast(st, n.i, m.pairs, U, 2);
  }

  /** The message that follows would be accepted, but once the late one is, it is refused. */
  lemma LateOccurs(maxSkip: nat) returns (st: Start, s: Session)
    requires 1 <= maxSkip < 0x8000_0000
    ensures Reachable(st, s, maxSkip) && LateThenNext(s, maxSkip)
    ensures Receive(s.u, s.log[(2, 1)].msg, maxSkip).Accepted?
    ensures Receive(s.u, s.log[(0, 0)].msg, maxSkip).Accepted?
    ensures Receive(Receive(s.u, s.log[(0, 0)].msg, maxSkip).after, s.log[(2, 1)].msg, maxSkip) == Undefined
  {
    st, s := LateRun(maxSkip);
    LateFollows(st, s, maxSkip);
    LateRefuses(st, s, maxSkip);
  }

  lemma LateRefuses(st: Start, s: Session, maxSkip: nat)
    requires Reachable(st, s, maxSkip) && LateThenNext(s, maxSkip)
    ensures Receive(s.u, s.log[(2, 1)].msg, maxSkip).Accepted?
    ensures Receive(s.u, s.log[(0, 0)].msg, maxSkip).Accepted?
    ensures Receive(Receive(s.u, s.log[(0, 0)].msg, maxSkip).after, s.log[(2, 1)].msg, maxSkip) == Undefined
  {
    NextAccepted(st, s, maxSkip);
    assert LastReceived(3, U) == 2;
    LateMessageHarmlessIff(st, s, maxSkip, 0, 0, 2, 1);
  }

  lemma NextAccepted(st: Start, s: Session, maxSkip: nat)
    requires Reachable(st, s, maxSkip) && LateThenNext(s, maxSkip)
    ensures Receive(s.u, s.log[(2, 1)].msg, maxSkip).Accepted?
  {
    ReachableInv(st, s, maxSkip);
    assert SentOf(st, s.counts, 2, 1, s.log[(2, 1)]);
    AcceptedIff(st, s, maxSkip, 2, 1);
  }

  /** A rejected message that is not harmless: right after the key exchange, one with a key of its own and
      an authenticator under no derived key, before the first genuine one arrives at 'u'. */
  lemma ErasureOccurs(maxSkip: nat) returns (st: Start, s: Session, msg: DataMessage)
    ensures Reachable(st, s, maxSkip) && s.u.skipped == [] && s.u.n.i == 0
    ensures Receive(s.u, msg, maxSkip).Rejected? && !Harmless(s.u, U, msg.body)
  {
    st, s := StartAt(maxSkip);
    ReachableInv(st, s, maxSkip);
    assert SideInv(st, s, U);
    msg := BadAuthenticatorErases(s.u, U, Body(Dake(9), Dake(9), 0, 0, 0, Zeros, ""), maxSkip);
    AwaitsFirst(st, s.counts, s.u);
  }

  lemma AwaitsFirst(st: Start, counts: seq<nat>, m: Manager)
    requires PartyInv(st, counts, m, U) && m.n.i == 0
    ensures OwnRatchet(0, U) && m.pairs.ourDh.priv.Some? && m.pairs.theirEcdh == EcOf(st, -2)
  {
  }

  /** A duplicate whose outcome is not defined: 't' sends a message, 'u' answers, 't' sends one of ratchet 2.
      Now 'u' is to make the next exchange, and its old half is gone; a second copy of the very
      first message makes it use that half. */
  lemma DuplicateIsUndefined(maxSkip: nat) returns (st: Start, s: Session)
    requires maxSkip < 0x8000_0000
    ensures Reachable(st, s, maxSkip) && (0, 0) in s.delivered && (0, 0) in s.log
    ensures Receive(s.u, s.log[(0, 0)].msg, maxSkip) == Undefined
  {
    st, s := DuplicateRun(maxSkip);
    NeverTwice(st, s, maxSkip, 0, 0);
    DueAtThree();
  }

  lemma DueAtThree()
    ensures BetweenExchanges(3, U, 0)
  {
  }

  lemma DuplicateRun(maxSkip: nat) returns (st: Start, s: Session)
    requires maxSkip < 0x8000_0000
    ensures Reachable(st, s, maxSkip) && s.u.n.i == 3 && (0, 0) in s.delivered && (0, 0) in s.Gone()
  {
    var s1: Session;
    st, s1 := FirstArrives(maxSkip);
    s := ThirdFollows(st, s1, maxSkip, 1, 0);
    FirstGone(s);
  }

  lemma ThirdFollows(st: Start, s1: Session, maxSkip: nat, n: nat, got: nat) returns (s: Session)
    requires maxSkip < 0x8000_0000 && n == got + 1 && got < 0x8000_0000
    requires At(st, s1, maxSkip, [n], Counters(1, n, 0, 0), Counters(1, 0, n, 0), {(0, got)})
    ensures At(st, s, maxSkip, [n, 1, 1], Counters(3, 1, 1, n), Counters(3, 0, 1, 1), {(0, got), (1, 0), (2, 0)})
  {
    var s2 := AnswerAndOpen(st, s1, maxSkip, n, got);
    s := ThirdArrives(st, s2, maxSkip, got, 1);
  }

  lemma FirstGone(s: Session)
    requires s.delivered == {(0, 0), (1, 0), (2, 0)}
    ensures (0, 0) in s.delivered && (0, 0) in s.Gone()
  {
  }

  lemma FirstArrives(maxSkip: nat) returns (st: Start, s: Session)
    ensures At(st, s, maxSkip, [1], Counters(1, 1, 0, 0), Counters(1, 0, 1, 0), {(0, 0)})
  {
    var s0: Session;
    var n := Counters(0, 0, 0, 0);
    st, s0 := StartAt(maxSkip);
    var s1 := OpenAt(st, s0, maxSkip, [], n, n, {}, T);
    assert [] + [1] == [1];
    assert Enterable([1], n, 0, 0, maxSkip);
    s := EnterAt(st, s1, maxSkip, [1], Counters(1, 1, 0, 0), n, {}, 0, 0);
    assert {} + {(0, 0)} == {(0, 0)};
  }

  /** The first message of ratchet 2 arrives, with nothing left on the chain of ratchet 0. */
  lemma ThirdArrives(st: Start, s0: Session, maxSkip: nat, got: nat, sent: nat) returns (s: Session)
    requires maxSkip < 0x8000_0000 && got < 0x8000_0000 && sent >= 1
    requires At(st, s0, maxSkip, [got + 1, 1, sent], Counters(3, sent, 1, got + 1), Counters(2, 1, got + 1, 0),
                {(0, got), (1, 0)})
    ensures At(st, s, maxSkip, [got + 1, 1, sent], Counters(3, sent, 1, got + 1), Counters(3, 0, 1, 1),
               {(0, got), (1, 0), (2, 0)})
  {
    var counts, u := [got + 1, 1, sent], Counters(2, 1, got + 1, 0);
    ThirdEnterable(counts, u, maxSkip);
    s := EnterAt(st, s0, maxSkip, counts, Counters(3, sent, 1, got + 1), u, {(0, got), (1, 0)}, 2, 0);
    assert {(0, got), (1, 0)} + {(2, 0)} == {(0, got), (1, 0), (2, 0)};
  }

  lemma ThirdEnterable(counts: seq<nat>, n: Counters, maxSkip: nat)
    requires |counts| == 3 && counts[2] >= 1 && n.i == 2 && n.k == counts[0]
    requires maxSkip < 0x8000_0000 && n.k <= 0x8000_0000
    ensures Enterable(counts, n, 2, 0, maxSkip)
  {
    assert n.k + maxSkip < 0x1_0000_0000;
  }
}
