/** Receiving in an honest session: the keys are the scheduled ones and the invariant is kept. */
module RatchetReceive {
  import opened Prelude
  import opened Keys
  import opened KeyManager
  import opened RatchetSession

  // ---------------------------------------------------------------- the store

  /** The scheduled keys of messages lo .. hi-1 of ratchet r. */
  function SkippedRange(st: Start, r: nat, lo: nat, hi: nat): seq<Skipped>
    requires lo <= hi
  {
    seq(hi - lo, x requires 0 <= x < hi - lo => SkippedOf(st, r, lo + x))
  }

  lemma {:induction false} StoreLoopStores(st: Start, t: Temp, r: nat, until: nat)
    requires t.chainR == ChainAt(ChainOf(st, r), t.n.k) && t.n.k <= until
    ensures StoreLoop(t, until, Ratchet(r))
            == t.(chainR := ChainAt(ChainOf(st, r), until), n := t.n.(k := until),
                  skipped := t.skipped + SkippedRange(st, r, t.n.k, until))
    decreases until - t.n.k
  {
    if t.n.k < until {
      var t1 := t.(chainR := NextChain(t.chainR), skipped := t.skipped + [SkippedAt(Ratchet(r), t.n.k, t.chainR)],
                   n := t.n.(k := t.n.k + 1));
      StoreLoopStores(st, t1, r, until);
      assert SkippedRange(st, r, t.n.k, until)
          == [SkippedOf(st, r, t.n.k)] + SkippedRange(st, r, t.n.k + 1, until);
      assert t1.skipped + SkippedRange(st, r, t.n.k + 1, until) == t.skipped + SkippedRange(st, r, t.n.k, until);
    } else {
      assert t.skipped + SkippedRange(st, r, t.n.k, until) == t.skipped;
    }
  }

  lemma ChainNotZeros(st: Start, r: nat, k: nat)
    ensures ChainAt(ChainOf(st, r), k) != Zeros
  {
  }

  ghost function AndRange(want: (nat, nat) -> bool, r: nat, lo: nat, hi: nat): (nat, nat) -> bool {
    (r': nat, id: nat) => want(r', id) || (r' == r && lo <= id < hi)
  }

  ghost function Without(want: (nat, nat) -> bool, r: nat, id: nat): (nat, nat) -> bool {
    (r': nat, id': nat) => want(r', id') && !(r' == r && id' == id)
  }

  lemma NoDuplicatesConcat<X>(a: seq<X>, b: seq<X>)
    requires NoDuplicates(a) && NoDuplicates(b) && forall x | x in b :: x !in a
    ensures NoDuplicates(a + b)
  {
    var c := a + b;
    forall m, n | 0 <= m < n < |c|
      ensures c[m] != c[n]
    {
      if m < |a| <= n {
        assert c[n] in b;
      }
    }
  }

  lemma NoDuplicatesRemove<X>(s: seq<X>, n: nat)
    requires NoDuplicates(s) && n < |s|
    ensures NoDuplicates(RemoveAt(s, n))
    ensures forall e :: e in RemoveAt(s, n) <==> e in s && e != s[n]
  {
    var rest := RemoveAt(s, n);
    forall e | e in rest
      ensures e in s && e != s[n]
    {
      var x :| 0 <= x < |rest| && rest[x] == e;
      assert e == s[if x < n then x else x + 1];
    }
    forall e | e in s && e != s[n]
      ensures e in rest
    {
      var x :| 0 <= x < |s| && s[x] == e;
      assert e == rest[if x < n then x else x - 1];
    }
    assert forall a, b | 0 <= a < b < |rest| ::
      rest[a] == s[if a < n then a else a + 1] && rest[b] == s[if b < n then b else b + 1];
  }

  lemma RangeHolds(st: Start, r: nat, lo: nat, hi: nat)
    requires lo <= hi
    ensures var range := SkippedRange(st, r, lo, hi);
            && NoDuplicates(range)
            && (forall id: nat | lo <= id < hi :: SkippedOf(st, r, id) in range)
            && (forall e | e in range :: e.theirEcdh == Ratchet(r) && lo <= e.k < hi && e == SkippedOf(st, r, e.k))
  {
    var range := SkippedRange(st, r, lo, hi);
    forall id: nat | lo <= id < hi
      ensures SkippedOf(st, r, id) in range
    {
      assert range[id - lo] == SkippedOf(st, r, id);
    }
    forall a, b | 0 <= a < b < |range|
      ensures range[a] != range[b]
    {
      assert range[a].k == lo + a && range[b].k == lo + b;
    }
  }

  lemma StoreAppend(st: Start, store: seq<Skipped>, want: (nat, nat) -> bool, r: nat, lo: nat, hi: nat)
    requires StoreHolds(st, store, want) && lo <= hi
    requires forall id: nat | lo <= id < hi :: !want(r, id)
    ensures StoreHolds(st, store + SkippedRange(st, r, lo, hi), AndRange(want, r, lo, hi))
  {
    RangeHolds(st, r, lo, hi);
    NoDuplicatesConcat(store, SkippedRange(st, r, lo, hi));
  }

  lemma StoreRemove(st: Start, store: seq<Skipped>, want: (nat, nat) -> bool, n: nat, r: nat, id: nat)
    requires StoreHolds(st, store, want) && n < |store| && Matches(store[n], Ratchet(r), id)
    ensures store[n] == SkippedOf(st, r, id) && want(r, id)
    ensures StoreHolds(st, RemoveAt(store, n), Without(want, r, id))
  {
    assert store[n] in store;
    NoDuplicatesRemove(store, n);
  }

  /** A message is found in the store exactly when it is wanted there. */
  lemma FoundIffWanted(st: Start, store: seq<Skipped>, want: (nat, nat) -> bool, r: nat, id: nat)
    requires StoreHolds(st, store, want)
    ensures FindSkipped(store, Ratchet(r), id).Some? <==> want(r, id)
  {
    if want(r, id) {
      assert Matches(SkippedOf(st, r, id), Ratchet(r), id);
    }
  }

  // ------------------------------------------------ the three ways to receive

  /** What accepting sent message (r, id) leaves behind, given the counters, the chain and
      the store it leads to. */
  function After(m: Manager, ourEcdh: EcPair, ourDh: DhPair, sent: Sent, n: Counters, root: Term, chainR: Term,
                 shared: Term, store: seq<Skipped>): Manager {
    Manager(KeyPairs(ourEcdh, ourDh, sent.msg.body.ecdh, sent.msg.body.dh), n,
            Chains(root, m.chains.chainS, chainR), Scratch(Zeros, shared, sent.keys.extra),
            store, m.oldMacKeys + [sent.keys.mac])
  }

  /** From the store, whatever ratchet the message belongs to. */
  lemma ReceiveStored(st: Start, counts: seq<nat>, m: Manager, want: (nat, nat) -> bool,
                      r: nat, id: nat, sent: Sent, maxSkip: nat) returns (n: nat)
    requires StoreHolds(st, m.skipped, want) && want(r, id) && SentOf(st, counts, r, id, sent)
    ensures n < |m.skipped| && Matches(m.skipped[n], Ratchet(r), id)
    ensures Receive(m, sent.msg, maxSkip)
            == Accepted(After(m, m.pairs.ourEcdh, m.pairs.ourDh, sent, m.n, m.chains.rootKey, m.chains.chainR, Zeros,
                              RemoveAt(m.skipped, n)),
                        sent.msg.body.payload, sent.keys)
  {
    FoundIffWanted(st, m.skipped, want, r, id);
    n := FindSkipped(m.skipped, Ratchet(r), id).value;
    assert m.skipped[n] in m.skipped;
  }

  /** On the current chain, at or beyond the receive counter. */
  lemma ReceiveCurrent(st: Start, counts: seq<nat>, m: Manager, r: nat, id: nat, sent: Sent, maxSkip: nat)
    requires SentOf(st, counts, r, id, sent)
    requires m.pairs.theirEcdh == Ratchet(r) && m.chains.chainR == ChainAt(ChainOf(st, r), m.n.k)
    requires FindSkipped(m.skipped, Ratchet(r), id).None? && m.n.k <= id
    requires id == m.n.k || !GapTooWide(m.n.k, maxSkip, id)
    ensures Receive(m, sent.msg, maxSkip)
            == Accepted(After(m, m.pairs.ourEcdh, m.pairs.ourDh, sent, m.n.(k := id + 1), m.chains.rootKey,
                              ChainAt(ChainOf(st, r), id + 1), Zeros, m.skipped + SkippedRange(st, r, m.n.k, id)),
                        sent.msg.body.payload, sent.keys)
  {
    var b := sent.msg.body;
    var t := TempNew(m, b.ecdh, b.dh);
    StoreLoopStores(st, t, r, id);
    ChainNotZeros(st, r, m.n.k);
    assert NextChain(ChainAt(ChainOf(st, r), id)) == ChainAt(ChainOf(st, r), id + 1);
  }

  /** The receiver of a new ratchet mixes the same secrets as its sender did. */
  lemma EnteredKeys(st: Start, i: nat, pairs: KeyPairs, root: Term, p: Party)
    requires OwnRatchet(i, p) && OwnKeysInv(st, i, pairs, p) && root == RootOf(st, i)
    ensures EnterNewRatchet(i, pairs, Ratchet(i), DhOf(st, i), Zeros, root)
            == Some(Mixed(RootOf(st, i + 1), ChainOf(st, i)))
  {
    EcdhCommutes(EcOf(st, i - 1), Ratchet(i));
    DhCommutes(DhOf(st, i - 1), DhOf(st, i));
    assert BraceKey(i, pairs.ourDh.priv, DhOf(st, i), Zeros) == Some(BraceOf(st, i));
  }

  /** The keys of the superseded chain that are stored: none when the guard fires. */
  function Superseded(st: Start, last: int, k: nat, pn: nat, maxSkip: nat): seq<Skipped>
    requires k <= pn
  {
    if last < 0 || GapTooWide(k, maxSkip, pn) then [] else SkippedRange(st, last, k, pn)
  }

  /** Before the rotation, the rest of the superseded chain goes to the store, if it fits. */
  lemma SupersededStored(st: Start, t: Temp, last: int, until: nat, maxSkip: nat, ecdh: KeyId)
    requires last >= 0 ==> ecdh == Ratchet(last)
    requires t.chainR == if last < 0 then Zeros else ChainAt(ChainOf(st, last), t.n.k)
    requires t.n.k <= until && (last < 0 ==> until == 0)
    ensures var t1 := StoreEncKeys(t, until, maxSkip, ecdh);
            && t1 == t.(n := t.n.(k := t1.n.k), chainR := t1.chainR, skipped := t1.skipped)
            && t1.skipped == t.skipped + Superseded(st, last, t.n.k, until, maxSkip)
  {
    if last >= 0 {
      ChainNotZeros(st, last, t.n.k);
      StoreLoopStores(st, t, last, until);
    }
  }

  /** The store after entering ratchet r with message id. */
  function EnteredStore(st: Start, m: Manager, last: int, pn: nat, r: nat, id: nat, maxSkip: nat): seq<Skipped>
    requires m.n.k <= pn
  {
    m.skipped + Superseded(st, last, m.n.k, pn, maxSkip) + SkippedRange(st, r, 0, id)
  }

  function EraseDh(i: nat, dh: DhPair): DhPair { if i % 3 == 0 then dh.(priv := None) else dh }

  lemma AttemptAccepted(st: Start, counts: seq<nat>, m: Manager, r: nat, id: nat, sent: Sent, maxSkip: nat)
    requires SentOf(st, counts, r, id, sent)
    requires var a := DeriveKeys(m, sent.msg.body, maxSkip); a.Attempt? && a.keys == sent.keys
    ensures var a := DeriveKeys(m, sent.msg.body, maxSkip);
            Receive(m, sent.msg, maxSkip)
            == Accepted(Commit(a.m, a.t).(oldMacKeys := m.oldMacKeys + [sent.keys.mac]), sent.msg.body.payload, sent.keys)
  {
  }

  /** The temporary ratchet just after entering ratchet m.n.i with message b. */
  function EnteredTemp(st: Start, m: Manager, b: Body, maxSkip: nat): Temp
    requires m.n.k <= b.pn
  {
    Temp(Erased, b.ecdh, b.dh, Counters(m.n.i + 1, 0, 0, m.n.j), RootOf(st, m.n.i + 1),
         ChainOf(st, m.n.i), Scratch(Zeros, Zeros, m.scratch.extra),
         m.skipped + Superseded(st, m.n.i - 2, m.n.k, b.pn, maxSkip))
  }

  lemma RotatedTemp(st: Start, m: Manager, b: Body, maxSkip: nat)
    requires EnterNewRatchet(m.n.i, m.pairs, b.ecdh, b.dh, m.scratch.braceKey, m.chains.rootKey)
             == Some(Mixed(RootOf(st, m.n.i + 1), ChainOf(st, m.n.i)))
    requires m.chains.chainR == if m.n.i < 2 then Zeros else ChainAt(ChainOf(st, m.n.i - 2), m.n.k)
    requires m.n.i >= 2 ==> m.pairs.theirEcdh == Ratchet(m.n.i - 2)
    requires m.n.k <= b.pn && (m.n.i < 2 ==> b.pn == 0)
    ensures RotateReceiving(m, StoreEncKeys(TempNew(m, b.ecdh, b.dh), b.pn, maxSkip, m.pairs.theirEcdh))
            == Some(EnteredTemp(st, m, b, maxSkip))
  {
    SupersededStored(st, TempNew(m, b.ecdh, b.dh), m.n.i - 2, b.pn, maxSkip, m.pairs.theirEcdh);
  }

  /** This side is waiting for ratchet r, and message (r, id) is within the limit on its own chain. */
  predicate Awaits(st: Start, counts: seq<nat>, m: Manager, p: Party, r: nat, id: nat, maxSkip: nat) {
    && OwnRatchet(r, p) && r == m.n.i && OwnKeysInv(st, r, m.pairs, p) && ChainsInv(st, m.n, m.chains, p)
    && m.scratch.braceKey == Zeros && m.n.k <= Count(counts, r - 2)
    && m.pairs.theirEcdh != Ratchet(r) && (r >= 2 ==> m.pairs.theirEcdh == Ratchet(r - 2))
    && FindSkipped(m.skipped, Ratchet(r), id).None?
    && !GapTooWide(0, maxSkip, id)
  }

  lemma DeriveEntersRatchet(st: Start, counts: seq<nat>, m: Manager, p: Party, r: nat, b: Body, maxSkip: nat)
    requires BodyOf(st, counts, r, b.id, b) && Awaits(st, counts, m, p, r, b.id, maxSkip)
    ensures DeriveKeys(m, b, maxSkip)
            == DeriveChainKeysReceiving(EraseDhOnRotate(m), EnteredTemp(st, m, b, maxSkip), b.id, maxSkip)
  {
    EnteredKeys(st, r, m.pairs, m.chains.rootKey, p);
    RotatedTemp(st, m, b, maxSkip);
  }

  lemma DeriveNew(st: Start, counts: seq<nat>, m: Manager, p: Party, r: nat, id: nat, sent: Sent, maxSkip: nat)
    requires SentOf(st, counts, r, id, sent) && Awaits(st, counts, m, p, r, id, maxSkip)
    ensures DeriveKeys(m, sent.msg.body, maxSkip)
            == Attempt(EraseDhOnRotate(m),
                       Temp(Erased, Ratchet(r), DhOf(st, r), Counters(r + 1, 0, id + 1, m.n.j), RootOf(st, r + 1),
                            ChainAt(ChainOf(st, r), id + 1), Scratch(Zeros, Zeros, sent.keys.extra),
                            EnteredStore(st, m, r - 2, Count(counts, r - 2), r, id, maxSkip)),
                       sent.keys)
  {
    DeriveEntersRatchet(st, counts, m, p, r, sent.msg.body, maxSkip);
    EnteredChain(st, counts, EraseDhOnRotate(m), EnteredTemp(st, m, sent.msg.body, maxSkip), r, id, sent, maxSkip);
  }

  /** The first message that arrives of a new ratchet. */
  lemma ReceiveNew(st: Start, counts: seq<nat>, m: Manager, p: Party, r: nat, id: nat, sent: Sent, maxSkip: nat)
    requires SentOf(st, counts, r, id, sent) && Awaits(st, counts, m, p, r, id, maxSkip)
    ensures Receive(m, sent.msg, maxSkip)
            == Accepted(After(m, EcPair(Erased, m.pairs.ourEcdh.pub), EraseDh(r, m.pairs.ourDh), sent,
                              Counters(r + 1, 0, id + 1, m.n.j), RootOf(st, r + 1), ChainAt(ChainOf(st, r), id + 1),
                              Zeros, EnteredStore(st, m, r - 2, Count(counts, r - 2), r, id, maxSkip)),
                        sent.msg.body.payload, sent.keys)
  {
    DeriveNew(st, counts, m, p, r, id, sent, maxSkip);
    AttemptAccepted(st, counts, m, r, id, sent, maxSkip);
  }

  lemma EnteredChain(st: Start, counts: seq<nat>, m: Manager, t: Temp, r: nat, id: nat, sent: Sent, maxSkip: nat)
    requires SentOf(st, counts, r, id, sent)
    requires t.n.k == 0 && t.chainR == ChainOf(st, r) && t.theirEcdh == Ratchet(r) && !GapTooWide(0, maxSkip, id)
    ensures DeriveChainKeysReceiving(m, t, id, maxSkip)
            == Attempt(m, t.(scratch := t.scratch.(extra := sent.keys.extra),
                             chainR := ChainAt(ChainOf(st, r), id + 1), n := t.n.(k := id + 1),
                             skipped := t.skipped + SkippedRange(st, r, 0, id)),
                       sent.keys)
  {
    StoreLoopStores(st, t, r, id);
    ChainNotZeros(st, r, 0);
    assert NextChain(ChainAt(ChainOf(st, r), id)) == ChainAt(ChainOf(st, r), id + 1);
  }
}
