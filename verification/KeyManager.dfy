/**
 The double ratchet of one conversation as functions on values: what one send
 and one receive compute.  Class RatchetKeys in module RatchetMachine runs the
 same steps in place.
 */
module KeyManager {
  import opened Prelude
  import opened Keys

  /** One entry of the list of skipped message keys. */
  datatype Skipped = Skipped(theirEcdh: KeyId, k: nat, extra: Term, enc: Term)

  /** The ratchet id, the next ids to send and to receive, the length of the previous chain. */
  datatype Counters = Counters(i: nat, j: nat, k: nat, pn: nat)

  datatype KeyPairs = KeyPairs(ourEcdh: EcPair, ourDh: DhPair, theirEcdh: KeyId, theirDh: KeyId)
  datatype Chains = Chains(rootKey: Term, chainS: Term, chainR: Term)

  /** Buffers that are written and wiped on the way. */
  datatype Scratch = Scratch(braceKey: Term, sharedSecret: Term, extra: Term)

  /** The fields of the key manager that the data message phase uses. */
  datatype Manager = Manager(
    pairs: KeyPairs, n: Counters, chains: Chains, scratch: Scratch,
    skipped: seq<Skipped>, oldMacKeys: seq<Term>)

  /** The temporary receiving ratchet: everything a receive may change before
      the message is known to be authentic. */
  datatype Temp = Temp(
    ourEcdhPriv: EcPriv, theirEcdh: KeyId, theirDh: KeyId,
    n: Counters, rootKey: Term, chainR: Term, scratch: Scratch, skipped: seq<Skipped>)

  /** What the authenticator covers. The cipher text is the payload under a key. */
  datatype Body = Body(ecdh: KeyId, dh: KeyId, pn: nat, ratchetId: nat, id: nat, encKey: Term, payload: string)

  /** The authenticator is the KDF of MAC key and body (usage 0x1A). */
  datatype Authenticator = Authenticator(macKey: Term, body: Body)

  datatype DataMessage = DataMessage(body: Body, mac: Authenticator, revealed: seq<Term>)

  datatype MessageKeys = MessageKeys(enc: Term, mac: Term, extra: Term)

  datatype Sent = Sent(after: Manager, msg: DataMessage, keys: MessageKeys)

  /** After a rejection with freed set the key manager goes on pointing at a list of skipped keys
      that has been freed; after says what was in it. Undefined is the outcome when the source
      hands a null pointer to the modular exponentiation: nothing is known from there on. */
  datatype Receipt =
    | Accepted(after: Manager, payload: string, keys: MessageKeys)
    | Rejected(after: Manager, freed: bool)
    | Undefined

  function KeysAt(chain: Term): MessageKeys {
    MessageKeys(EncKey(chain), MacKey(EncKey(chain)), ExtraKey(chain))
  }

  function Reversed<T>(s: seq<T>): seq<T> {
    if s == [] then [] else Reversed(s[1..]) + [s[0]]
  }

  // ------------------------------------------------- entering a new ratchet

  /** The brace key: a new exchange on every third ratchet, else a KDF of the previous
      one. None when the private half is no longer there, for which the source makes no check. */
  function BraceKey(i: nat, ourDhPriv: Option<KeyId>, theirDh: KeyId, braceKey: Term): Option<Term> {
    if i % 3 == 0 then
      match ourDhPriv
      case None => None
      case Some(priv) => Some(Kdf1(USAGE_THIRD_BRACE_KEY, Dh(priv, theirDh)))
    else
      Some(Kdf1(USAGE_BRACE_KEY, braceKey))
  }

  /** The root key and the first chain key of a new ratchet. */
  datatype Mixed = Mixed(root: Term, chain: Term)

  function EnterNewRatchet(i: nat, own: KeyPairs, theirEcdh: KeyId, theirDh: KeyId, braceKey: Term, root: Term)
    : Option<Mixed>
  {
    match BraceKey(i, own.ourDh.priv, theirDh, braceKey)
    case None => None
    case Some(brace) =>
      var k := MixedSecret(Ecdh(own.ourEcdh.priv, theirEcdh), brace);
      Some(Mixed(NextRoot(root, k), ChainStart(NextRoot(root, k), k)))
  }

  // ---------------------------------------------------------------- sending

  function GenerateEphemeralKeys(i: nat, pairs: KeyPairs, newKey: KeyId): KeyPairs {
    var p1 := pairs.(ourEcdh := EcPair(Live(newKey), newKey));
    if i % 3 == 0 then p1.(ourDh := DhPair(Some(newKey), newKey)) else p1
  }

  function RotateSending(m: Manager, newKey: KeyId): Option<Manager> {
    var pairs := GenerateEphemeralKeys(m.n.i, m.pairs, newKey);
    match EnterNewRatchet(m.n.i, pairs, pairs.theirEcdh, pairs.theirDh, m.scratch.braceKey, m.chains.rootKey)
    case None => None
    case Some(mixed) =>
      Some(m.(pairs := pairs, n := m.n.(i := m.n.i + 1),
              chains := m.chains.(rootKey := mixed.root, chainS := mixed.chain),
              scratch := m.scratch.(braceKey := Zeros, sharedSecret := Zeros)))
  }

  /** Send with the current sending chain. The first message of a chain also reveals the MAC
      keys of everything received so far, last stored first. */
  function SendOnChain(m: Manager, ratchetId: nat, payload: string): Sent {
    var keys := KeysAt(m.chains.chainS);
    var body := Body(m.pairs.ourEcdh.pub, m.pairs.ourDh.pub, m.n.pn, ratchetId, m.n.j, keys.enc, payload);
    var first := m.n.j == 0;
    Sent(m.(chains := m.chains.(chainS := NextChain(m.chains.chainS)),
            scratch := m.scratch.(extra := keys.extra),
            oldMacKeys := if first then [] else m.oldMacKeys,
            n := m.n.(j := m.n.j + 1)),
         DataMessage(body, Authenticator(keys.mac, body), if first then Reversed(m.oldMacKeys) else []),
         keys)
  }

  /** Send one data message. A new ratchet starts exactly when nothing has been sent
      since the last one was received. The message carries the ratchet id from before. */
  function Send(m: Manager, newKey: KeyId, payload: string): Option<Sent> {
    if m.n.j == 0 then
      match RotateSending(m, newKey)
      case None => None
      case Some(m1) => Some(SendOnChain(m1, m.n.i, payload))
    else
      Some(SendOnChain(m, m.n.i, payload))
  }

  // -------------------------------------------------------------- receiving

  function TempNew(m: Manager, theirEcdh: KeyId, theirDh: KeyId): Temp {
    Temp(m.pairs.ourEcdh.priv, theirEcdh, theirDh, m.n, m.chains.rootKey, m.chains.chainR,
         Scratch(Zeros, Zeros, m.scratch.extra), m.skipped)
  }

  /** The storage guard: 32-bit unsigned addition, then a comparison. */
  predicate GapTooWide(k: nat, maxSkip: nat, until: nat) {
    (k + maxSkip) % 0x1_0000_0000 < until
  }

  function SkippedAt(ecdh: KeyId, k: nat, chain: Term): Skipped {
    Skipped(ecdh, k, ExtraKey(chain), EncKey(chain))
  }

  /** The loop that stores keys k .. until-1 of the current receiving chain under ecdh. */
  function StoreLoop(t: Temp, until: nat, ecdh: KeyId): Temp
    decreases until - t.n.k
  {
    if t.n.k < until then
      StoreLoop(t.(chainR := NextChain(t.chainR), skipped := t.skipped + [SkippedAt(ecdh, t.n.k, t.chainR)],
                   n := t.n.(k := t.n.k + 1)),
                until, ecdh)
    else
      t
  }

  /** Store the keys of skipped messages. Too wide a gap, or a chain that does not exist
      yet, stores nothing and is still a success. */
  function StoreEncKeys(t: Temp, until: nat, maxSkip: nat, ecdh: KeyId): Temp {
    if GapTooWide(t.n.k, maxSkip, until) || t.chainR == Zeros then t else StoreLoop(t, until, ecdh)
  }

  predicate Matches(e: Skipped, ecdh: KeyId, id: nat) { e.theirEcdh == ecdh && e.k == id }

  /** Index of the first entry for this ratchet key and message id. */
  function FindSkipped(s: seq<Skipped>, ecdh: KeyId, id: nat): (r: Option<nat>)
    ensures r.Some? ==> r.value < |s| && Matches(s[r.value], ecdh, id)
    ensures r.Some? ==> forall n | 0 <= n < r.value :: !Matches(s[n], ecdh, id)
    ensures r.None? ==> forall e | e in s :: !Matches(e, ecdh, id)
  {
    if s == [] then None
    else if Matches(s[0], ecdh, id) then Some(0)
    else match FindSkipped(s[1..], ecdh, id)
      case None => None
      case Some(n) => Some(n + 1)
  }

  function RemoveAt<T>(s: seq<T>, n: nat): (r: seq<T>)
    requires n < |s|
    ensures |r| == |s| - 1
    ensures multiset(r) + multiset{s[n]} == multiset(s)
  {
    assert s == s[..n] + [s[n]] + s[n + 1..];
    s[..n] + s[n + 1..]
  }

  /** Mix the peer's new keys into the temporary ratchet. The private halves and the old
      brace key are those of the key manager itself. */
  function RotateReceiving(m: Manager, t: Temp): Option<Temp> {
    match EnterNewRatchet(m.n.i, m.pairs, t.theirEcdh, t.theirDh, m.scratch.braceKey, t.rootKey)
    case None => None
    case Some(mixed) =>
      Some(t.(rootKey := mixed.root, chainR := mixed.chain, ourEcdhPriv := Erased,
              scratch := t.scratch.(braceKey := Zeros, sharedSecret := Zeros),
              n := Counters(t.n.i + 1, 0, 0, t.n.j)))
  }

  /** The DH private half is erased in the key manager itself, before the message is
      known to be authentic. */
  function EraseDhOnRotate(m: Manager): Manager {
    if m.n.i % 3 == 0 then m.(pairs := m.pairs.(ourDh := m.pairs.ourDh.(priv := None))) else m
  }

  /** What the receiving side has in hand when it comes to check the authenticator. */
  datatype Attempt =
    | HalfMissing                                        // an exchange without a private half
    | Attempt(m: Manager, t: Temp, keys: MessageKeys)

  function DeriveChainKeysReceiving(m: Manager, t: Temp, id: nat, maxSkip: nat): Attempt {
    var t1 := StoreEncKeys(t, id, maxSkip, t.theirEcdh);
    var keys := KeysAt(t1.chainR);
    Attempt(m, t1.(scratch := t1.scratch.(extra := keys.extra), chainR := NextChain(t1.chainR),
                   n := t1.n.(k := t1.n.k + 1)),
            keys)
  }

  function FromStore(m: Manager, t: Temp, n: nat): Attempt
    requires n < |t.skipped|
  {
    var e := t.skipped[n];
    Attempt(m, t.(scratch := t.scratch.(extra := e.extra), skipped := RemoveAt(t.skipped, n)),
            MessageKeys(e.enc, MacKey(e.enc), e.extra))
  }

  function DeriveKeys(m: Manager, b: Body, maxSkip: nat): Attempt {
    var t := TempNew(m, b.ecdh, b.dh);
    match FindSkipped(m.skipped, b.ecdh, b.id)
    case Some(n) => FromStore(m, t, n)
    case None =>
      if b.ecdh == m.pairs.theirEcdh then
        DeriveChainKeysReceiving(m, t, b.id, maxSkip)
      else
        var t0 := StoreEncKeys(t, b.pn, maxSkip, m.pairs.theirEcdh);
        match RotateReceiving(m, t0)
        case None => HalfMissing
        case Some(t1) => DeriveChainKeysReceiving(EraseDhOnRotate(m), t1, b.id, maxSkip)
  }

  /** Copy the temporary ratchet back into the key manager. */
  function Commit(m: Manager, t: Temp): Manager {
    Manager(KeyPairs(m.pairs.ourEcdh.(priv := t.ourEcdhPriv), m.pairs.ourDh, t.theirEcdh, t.theirDh),
            t.n, Chains(t.rootKey, m.chains.chainS, t.chainR), t.scratch, t.skipped, m.oldMacKeys)
  }

  predicate ValidDataMessage(mac: Term, msg: DataMessage) {
    Authenticator(mac, msg.body) == msg.mac
  }

  /** Decrypting with the right key gives the payload back. */
  predicate Decrypts(enc: Term, b: Body) { enc == b.encKey }

  /** The list of skipped keys after a rejection. The temporary ratchet shares a list that is
      not empty, and frees it; a list that it started is lost. */
  function LeftBehind(m: Manager, t: Temp): seq<Skipped> {
    if m.skipped == [] then [] else t.skipped
  }

  /** Receive one data message. */
  function Receive(m: Manager, msg: DataMessage, maxSkip: nat): Receipt {
    match DeriveKeys(m, msg.body, maxSkip)
    case HalfMissing => Undefined
    case Attempt(m1, t, keys) =>
      if ValidDataMessage(keys.mac, msg) && Decrypts(keys.enc, msg.body) then
        Accepted(Commit(m1, t).(oldMacKeys := m.oldMacKeys + [keys.mac]), msg.body.payload, keys)
      else
        Rejected(m1.(skipped := LeftBehind(m, t)), m.skipped != [])
  }

  /** The position on its own chain at which message b finds the receive counter. */
  function ChainPosition(m: Manager, b: Body): nat {
    if b.ecdh == m.pairs.theirEcdh then m.n.k else 0
  }

  /** A caller can tell in advance: the key is stored, or no guard stands between the receive
      counter and the message. The guard on the superseded chain is not consulted. */
  predicate CanReach(m: Manager, b: Body, maxSkip: nat) {
    || FindSkipped(m.skipped, b.ecdh, b.id).Some?
    || b.id == ChainPosition(m, b)
    || !GapTooWide(ChainPosition(m, b), maxSkip, b.id)
  }

  /** Message b is taken for the start of a new ratchet. */
  predicate StartsRatchet(m: Manager, b: Body) {
    b.ecdh != m.pairs.theirEcdh && FindSkipped(m.skipped, b.ecdh, b.id).None?
  }

  /** Receiving message b needs a DH private half that has been erased. */
  predicate NeedsErased(m: Manager, b: Body) {
    StartsRatchet(m, b) && m.n.i % 3 == 0 && m.pairs.ourDh.priv.None?
  }

  /** Receiving message b erases the own DH private half. */
  predicate Erases(m: Manager, b: Body) {
    StartsRatchet(m, b) && m.n.i % 3 == 0 && m.pairs.ourDh.priv.Some?
  }
}
