/**
 A data message session between the side that sends first ('t') and the side that
 answers ('u'): the key schedule both are meant to follow, the events of an honest
 run, and the invariant that every such run keeps.
 */
module RatchetSession {
  import opened Prelude
  import opened Keys
  import opened KeyManager

  datatype Party = T | U

  /** 't' sends the even ratchets, 'u' the odd ones. */
  function Parity(p: Party): nat { if p == T then 0 else 1 }
  function Other(p: Party): Party { if p == T then U else T }
  function SenderOf(r: nat): Party { if r % 2 == 0 then T else U }

  // ------------------------------------------------------- the key schedule

  /** What the key exchange leaves behind: the first keys of 'u', the first root key, and
      the keys the other sides hold but never use. */
  datatype Start = Start(ec: KeyId, dh: KeyId, root: Term, uTheirEc: KeyId, uTheirDh: KeyId)

  /** The elliptic-curve key of ratchet r; ratchet -1 stands for the key exchange. */
  function EcOf(st: Start, r: int): KeyId {
    if r >= 0 then Ratchet(r) else if r == -1 then st.ec else st.uTheirEc
  }

  /** The 3072-bit public key announced in ratchet r: a new one on every third ratchet,
      else the one the same side announced before. */
  function DhOf(st: Start, r: int): KeyId
    decreases r + 2
  {
    if r == -1 then st.dh
    else if r < 0 then st.uTheirDh
    else if r % 3 == 0 then Ratchet(r)
    else DhOf(st, r - 2)
  }

  /** On every third ratchet both current 3072-bit keys are mixed in; in between the brace
      key is derived from a wiped buffer. */
  function BraceOf(st: Start, r: nat): Term {
    if r % 3 == 0 then Kdf1(USAGE_THIRD_BRACE_KEY, Dh(DhOf(st, r), DhOf(st, r - 1)))
    else Kdf1(USAGE_BRACE_KEY, Zeros)
  }

  function MixOf(st: Start, r: nat): Term {
    MixedSecret(Ecdh(Live(EcOf(st, r)), EcOf(st, r - 1)), BraceOf(st, r))
  }

  function RootOf(st: Start, r: nat): Term {
    if r == 0 then st.root else NextRoot(RootOf(st, r - 1), MixOf(st, r - 1))
  }

  function ChainOf(st: Start, r: nat): Term { ChainStart(RootOf(st, r + 1), MixOf(st, r)) }

  /** The keys of message id of ratchet r. */
  function KeysOf(st: Start, r: nat, id: nat): MessageKeys { KeysAt(ChainAt(ChainOf(st, r), id)) }

  function SkippedOf(st: Start, r: nat, id: nat): Skipped {
    Skipped(Ratchet(r), id, KeysOf(st, r, id).extra, KeysOf(st, r, id).enc)
  }

  // ---------------------------------------------------------- sessions and runs

  /** The MAC keys of one side's accepted messages, those it has revealed, and those it never stored
      because handling the TLVs of their messages failed. */
  datatype Macs = Macs(accepted: multiset<Term>, revealed: multiset<Term>, unstored: multiset<Term>)

  /** The two key managers, whether 'u' may send yet, how many messages each ratchet has
      sent, everything ever sent, which of it has been accepted, and which of it was on a chain
      that was left without storing its keys. */
  datatype Session = Session(
    t: Manager, u: Manager, uReady: bool,
    counts: seq<nat>, log: map<(nat, nat), Sent>, delivered: set<(nat, nat)>, lost: set<(nat, nat)>,
    tMacs: Macs, uMacs: Macs)
  {
    function Gone(): set<(nat, nat)> { delivered + lost }
    function Of(p: Party): Manager { if p == T then t else u }
    function MacsOf(p: Party): Macs { if p == T then tMacs else uMacs }
    function With(p: Party, m: Manager, macs: Macs): Session {
      if p == T then this.(t := m, tMacs := macs) else this.(u := m, uMacs := macs)
    }
    predicate MaySend(p: Party) { p == T || uReady }
  }

  datatype Event =
    | SendEvent(p: Party, payload: string)
    | DeliverEvent(r: nat, id: nat)
    | UnhandledEvent(r: nat, id: nat)           // a delivery after which handling the TLVs fails
    | InjectEvent(p: Party, msg: DataMessage)   // any message at all, forged, repeated or lost

  function Count(counts: seq<nat>, r: int): nat {
    if 0 <= r < |counts| then counts[r] else 0
  }

  function Counted(counts: seq<nat>, r: nat): seq<nat> {
    if r < |counts| then counts[r := counts[r] + 1] else counts + [1]
  }

  function SendStep(s: Session, p: Party, payload: string): Session {
    if !s.MaySend(p) then s
    else match Send(s.Of(p), Ratchet(|s.counts|), payload)
      case None => s
      case Some(sent) =>
        match sent.msg.body.ecdh
        case Ratchet(r) =>
          var macs := s.MacsOf(p).(revealed := s.MacsOf(p).revealed + multiset(sent.msg.revealed));
          s.With(p, sent.after, macs).(counts := Counted(s.counts, r),
                                       log := s.log[(r, sent.msg.body.id) := sent])
        case _ => s
  }

  /** The messages lo .. hi-1 of ratchet r. */
  function Ids(r: nat, lo: nat, hi: nat): set<(nat, nat)> {
    set id | lo <= id < hi :: (r, id)
  }

  /** The messages that are lost when message b of ratchet r arrives: those left on the superseded
      chain when its guard fires. */
  function LostBy(m: Manager, r: nat, b: Body, maxSkip: nat): set<(nat, nat)> {
    if r >= 2 && StartsRatchet(m, b) && GapTooWide(m.n.k, maxSkip, b.pn) then Ids(r - 2, m.n.k, b.pn) else {}
  }

  function DeliverStep(s: Session, r: nat, id: nat, maxSkip: nat): Session {
    if (r, id) !in s.log then s
    else
      var p := Other(SenderOf(r));
      match Receive(s.Of(p), s.log[(r, id)].msg, maxSkip)
      case Undefined => s
      case Rejected(m, _) => s.With(p, m, s.MacsOf(p))
      case Accepted(m, _, keys) =>
        var macs := s.MacsOf(p).(accepted := s.MacsOf(p).accepted + multiset{keys.mac});
        s.With(p, m, macs).(delivered := s.delivered + {(r, id)}, uReady := s.uReady || p == U,
                            lost := s.lost + LostBy(s.Of(p), r, s.log[(r, id)].msg.body, maxSkip))
  }

  /** The message is accepted, but its MAC key is not stored and 'u' does not become ready to send. */
  function UnhandledStep(s: Session, r: nat, id: nat, maxSkip: nat): Session {
    var p, s1 := Other(SenderOf(r)), DeliverStep(s, r, id, maxSkip);
    if (r, id) !in s.log then s
    else
      match Receive(s.Of(p), s.log[(r, id)].msg, maxSkip)
      case Accepted(_, _, keys) => Unstored(s, s1, p, keys.mac)
      case _ => s1
  }

  /** Session s1, as it follows s with the MAC key stored, without that. */
  function Unstored(s: Session, s1: Session, p: Party, mac: Term): Session {
    s1.With(p, s1.Of(p).(oldMacKeys := s.Of(p).oldMacKeys),
            s1.MacsOf(p).(unstored := s1.MacsOf(p).unstored + multiset{mac})).(uReady := s.uReady)
  }

  function InjectStep(s: Session, p: Party, msg: DataMessage, maxSkip: nat): Session {
    match Receive(s.Of(p), msg, maxSkip)
    case Rejected(m, _) => s.With(p, m, s.MacsOf(p))
    case _ => s
  }

  function Step(s: Session, e: Event, maxSkip: nat): Session {
    match e
    case SendEvent(p, payload) => SendStep(s, p, payload)
    case DeliverEvent(r, id) => DeliverStep(s, r, id, maxSkip)
    case UnhandledEvent(r, id) => UnhandledStep(s, r, id, maxSkip)
    case InjectEvent(p, msg) => InjectStep(s, p, msg, maxSkip)
  }

  /** A late message is one that only the store can decrypt and whose ratchet the peer has
      already left. */
  predicate LateForSuperseded(m: Manager, b: Body) {
    FindSkipped(m.skipped, b.ecdh, b.id).Some? && b.ecdh != m.pairs.theirEcdh
  }

  /** A message that is rejected does no harm: there is no store to be freed, and the DH private half
      that the next ratchet needs stays. A side about to send makes a new one anyway. */
  predicate Harmless(m: Manager, p: Party, b: Body) {
    m.skipped == [] && !(Erases(m, b) && OwnRatchet(m.n.i, p))
  }

  /** Something that was sent, not delivered before nor lost, that no guard on its own chain keeps out, and
      not a late message of a superseded ratchet. */
  predicate HonestDelivery(s: Session, r: nat, id: nat, maxSkip: nat) {
    && (r, id) in s.log && (r, id) !in s.Gone()
    && var m := s.Of(Other(SenderOf(r)));
    && CanReach(m, s.log[(r, id)].msg.body, maxSkip)
    && !LateForSuperseded(m, s.log[(r, id)].msg.body)
  }

  /** The events of an honest run: sends, honest deliveries, and any other message as long as it is rejected
      without harm. A receive that is not defined is part of no run. */
  predicate HonestEvent(s: Session, e: Event, maxSkip: nat) {
    match e
    case SendEvent(_, _) => true
    case DeliverEvent(r, id) => HonestDelivery(s, r, id, maxSkip)
    case UnhandledEvent(r, id) => HonestDelivery(s, r, id, maxSkip)
    case InjectEvent(p, msg) => Receive(s.Of(p), msg, maxSkip).Rejected? && Harmless(s.Of(p), p, msg.body)
  }

  predicate InitialManager(m: Manager, root: Term) {
    && m.n == Counters(0, 0, 0, 0)
    && m.chains.rootKey == root && m.chains.chainR == Zeros && m.scratch.braceKey == Zeros
    && m.skipped == [] && m.oldMacKeys == []
  }

  /** The state the key exchange leaves: see module DakeRun. */
  predicate Initial(st: Start, s: Session) {
    && StartInv(st)
    && InitialManager(s.t, st.root) && InitialManager(s.u, st.root)
    && s.t.pairs.theirEcdh == st.ec && s.t.pairs.theirDh == st.dh
    && s.u.pairs == KeyPairs(EcPair(Live(st.ec), st.ec), DhPair(Some(st.dh), st.dh), st.uTheirEc, st.uTheirDh)
    && !s.uReady && s.counts == [] && s.log == map[] && s.delivered == s.lost == {}
    && s.tMacs == s.uMacs == Macs(multiset{}, multiset{}, multiset{})
  }

  function Run(s: Session, events: seq<Event>, maxSkip: nat): Session {
    if events == [] then s
    else Step(Run(s, events[..|events| - 1], maxSkip), events[|events| - 1], maxSkip)
  }

  predicate HonestRun(s: Session, events: seq<Event>, maxSkip: nat) {
    events != [] ==>
      var before := events[..|events| - 1];
      && HonestRun(s, before, maxSkip)
      && HonestEvent(Run(s, before, maxSkip), events[|events| - 1], maxSkip)
  }

  /** The states of honest sessions. */
  ghost predicate Reachable(st: Start, s: Session, maxSkip: nat) {
    exists s0: Session, events: seq<Event> ::
      Initial(st, s0) && HonestRun(s0, events, maxSkip) && s == Run(s0, events, maxSkip)
  }

  // -------------------------------------------------------------- invariant

  /** The last ratchet this side opened or entered is its own. */
  predicate OwnRatchet(i: nat, p: Party) { i % 2 != Parity(p) }

  /** The last ratchet this side has received from; negative when there is none. */
  function LastReceived(i: nat, p: Party): int { if OwnRatchet(i, p) then i - 2 else i - 1 }

  predicate CountersInv(counts: seq<nat>, n: Counters, p: Party) {
    && (n.i == |counts| || (n.i + 1 == |counts| && OwnRatchet(n.i, p)))
    && n.j == (if OwnRatchet(n.i, p) then Count(counts, n.i - 1) else 0)
    && n.pn == Count(counts, if OwnRatchet(n.i, p) then n.i - 3 else n.i - 2)
    && n.k <= Count(counts, LastReceived(n.i, p))
  }

  /** The own elliptic-curve scalar is there exactly while the peer may still answer it.
      The DH private half outlives two more ratchets: up to the next exchange. */
  predicate OwnKeysInv(st: Start, i: nat, pairs: KeyPairs, p: Party) {
    && (OwnRatchet(i, p) ==>
          && pairs.ourEcdh == EcPair(Live(EcOf(st, i - 1)), EcOf(st, i - 1))
          && pairs.ourDh == DhPair(if i % 3 == 2 then None else Some(DhOf(st, i - 1)), DhOf(st, i - 1)))
    && (!OwnRatchet(i, p) && i > 0 ==>
          && pairs.ourEcdh == EcPair(Erased, EcOf(st, i - 2))
          && pairs.ourDh == DhPair(if i % 3 == 2 then Some(DhOf(st, i - 2)) else None, DhOf(st, i - 2)))
  }

  predicate TheirKeysInv(st: Start, i: nat, pairs: KeyPairs, p: Party) {
    && pairs.theirEcdh == EcOf(st, LastReceived(i, p))
    && pairs.theirDh == DhOf(st, LastReceived(i, p))
  }

  predicate ChainsInv(st: Start, n: Counters, c: Chains, p: Party) {
    && c.rootKey == RootOf(st, n.i)
    && (OwnRatchet(n.i, p) && n.i > 0 ==> c.chainS == ChainAt(ChainOf(st, n.i - 1), n.j))
    && var last := LastReceived(n.i, p);
    && c.chainR == if last < 0 then Zeros else ChainAt(ChainOf(st, last), n.k)
  }

  predicate PartyInv(st: Start, counts: seq<nat>, m: Manager, p: Party) {
    && CountersInv(counts, m.n, p)
    && OwnKeysInv(st, m.n.i, m.pairs, p)
    && TheirKeysInv(st, m.n.i, m.pairs, p)
    && ChainsInv(st, m.n, m.chains, p)
    && m.scratch.braceKey == Zeros
  }

  /** Message id of ratchet r lies below what this side has received so far. */
  predicate Passed(counts: seq<nat>, n: Counters, p: Party, r: nat, id: nat) {
    && p == Other(SenderOf(r)) && r <= LastReceived(n.i, p)
    && id < (if r == LastReceived(n.i, p) then n.k else Count(counts, r))
  }

  predicate NoDuplicates<X(==)>(s: seq<X>) {
    forall a, b | 0 <= a < b < |s| :: s[a] != s[b]
  }

  /** The store holds the scheduled keys of exactly the wanted messages, once each. */
  ghost predicate StoreHolds(st: Start, store: seq<Skipped>, want: (nat, nat) -> bool) {
    && NoDuplicates(store)
    && (forall e | e in store ::
          e.theirEcdh.Ratchet? && want(e.theirEcdh.r, e.k) && e == SkippedOf(st, e.theirEcdh.r, e.k))
    && (forall r: nat, id: nat | want(r, id) :: SkippedOf(st, r, id) in store)
  }

  /** Passed but neither accepted nor lost. */
  ghost function Missing(counts: seq<nat>, gone: set<(nat, nat)>, n: Counters, p: Party): (nat, nat) -> bool {
    (r: nat, id: nat) => Passed(counts, n, p, r, id) && (r, id) !in gone
  }

  ghost predicate StoreInv(st: Start, counts: seq<nat>, gone: set<(nat, nat)>,
                           n: Counters, store: seq<Skipped>, p: Party) {
    StoreHolds(st, store, Missing(counts, gone, n, p))
  }

  predicate BodyOf(st: Start, counts: seq<nat>, r: nat, id: nat, b: Body) {
    && b.ecdh == Ratchet(r) && b.id == id
    && b.dh == DhOf(st, r)
    && b.pn == Count(counts, r - 2)
    && b.encKey == KeysOf(st, r, id).enc
  }

  predicate SentOf(st: Start, counts: seq<nat>, r: nat, id: nat, sent: Sent) {
    && sent.keys == KeysOf(st, r, id)
    && BodyOf(st, counts, r, id, sent.msg.body)
    && sent.msg.mac == Authenticator(sent.keys.mac, sent.msg.body)
  }

  ghost predicate LogInv(st: Start, counts: seq<nat>, log: map<(nat, nat), Sent>) {
    && (forall r | 0 <= r < |counts| :: counts[r] >= 1)
    && (forall r: nat, id: nat :: (r, id) in log <==> id < Count(counts, r))
    && (forall r: nat, id: nat | (r, id) in log :: SentOf(st, counts, r, id, log[(r, id)]))
  }

  ghost predicate GoneInv(counts: seq<nat>, gone: set<(nat, nat)>, n: Counters, p: Party) {
    forall r: nat, id: nat | (r, id) in gone && p == Other(SenderOf(r)) :: Passed(counts, n, p, r, id)
  }

  predicate MacsInv(m: Manager, macs: Macs) {
    macs.accepted == macs.revealed + multiset(m.oldMacKeys) + macs.unstored
  }

  predicate StartInv(st: Start) {
    RootDepth(st.root) == 0 && !st.ec.Ratchet? && !st.uTheirEc.Ratchet? && st.ec != st.uTheirEc
  }

  ghost predicate SideInv(st: Start, s: Session, p: Party) {
    && PartyInv(st, s.counts, s.Of(p), p)
    && StoreInv(st, s.counts, s.Gone(), s.Of(p).n, s.Of(p).skipped, p)
    && GoneInv(s.counts, s.Gone(), s.Of(p).n, p)
    && MacsInv(s.Of(p), s.MacsOf(p))
  }

  ghost predicate Inv(st: Start, s: Session) {
    && StartInv(st) && LogInv(st, s.counts, s.log)
    && SideInv(st, s, T) && SideInv(st, s, U)
    && (s.uReady ==> s.u.n.i > 0)
  }
}
