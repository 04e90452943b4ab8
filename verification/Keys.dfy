/**
 Symbolic key material.

 Every 32- or 64-byte buffer of the key manager is a term of a free datatype:
 two derivations are equal exactly when usage byte and inputs are equal.  The
 elliptic-curve and the 3072-bit exchanges are the only operations with an
 equation, commutativity, which holds because a shared value records the
 multiset of the two private halves.
 */
module Keys {
  import opened Prelude

  /** Names a key pair.  The public half is the name, the private half is held separately. */
  datatype KeyId =
    | Dake(n: nat)          // generated during the key exchange
    | Outsider(n: nat)      // generated by somebody else, who can sign with it
    | Derived(seed: Term)   // derived from a KDF output
    | Ratchet(r: nat)       // generated when sending ratchet number r was opened

  datatype Term =
    | Zeros                              // a wiped or never written buffer
    | Octet(value: nat)
    | IdentityPoint                      // a point multiplied by an erased scalar
    | EcSecret(pair: multiset<KeyId>)
    | DhSecret(pair: multiset<KeyId>)
    | Nonce(n: nat)                      // key material from before the session
    | Kdf1(usage: nat, a: Term)
    | Kdf2(usage: nat, a: Term, b: Term)

  /** A scalar buffer: erased scalars are all zero but still usable. */
  datatype EcPriv = Erased | Live(id: KeyId)

  datatype EcPair = EcPair(priv: EcPriv, pub: KeyId)
  datatype DhPair = DhPair(priv: Option<KeyId>, pub: KeyId)

  const USAGE_THIRD_BRACE_KEY := 0x01
  const USAGE_BRACE_KEY := 0x02
  const USAGE_SHARED_SECRET := 0x03
  const USAGE_SSID := 0x04
  const USAGE_FIRST_ROOT_KEY := 0x0B
  const USAGE_ECDH_FIRST_EPHEMERAL := 0x12
  const USAGE_DH_FIRST_EPHEMERAL := 0x13
  const USAGE_ROOT_KEY := 0x14
  const USAGE_CHAIN_KEY := 0x15
  const USAGE_NEXT_CHAIN_KEY := 0x16
  const USAGE_MESSAGE_KEY := 0x17
  const USAGE_MAC_KEY := 0x18
  const USAGE_EXTRA_SYMM_KEY := 0x19
  const EXTRA_KEY_MAGIC := 0xFF

  function Ecdh(priv: EcPriv, pub: KeyId): Term {
    match priv
    case Erased => IdentityPoint
    case Live(id) => EcSecret(multiset{id, pub})
  }

  function Dh(priv: KeyId, pub: KeyId): Term {
    DhSecret(multiset{priv, pub})
  }

  lemma EcdhCommutes(a: KeyId, b: KeyId)
    ensures Ecdh(Live(a), b) == Ecdh(Live(b), a)
  {
    assert multiset{a, b} == multiset{b, a};
  }

  lemma DhCommutes(a: KeyId, b: KeyId)
    ensures Dh(a, b) == Dh(b, a)
  {
    assert multiset{a, b} == multiset{b, a};
  }

  // The derivations shared by the sending and the receiving side.

  function MixedSecret(ecdh: Term, brace: Term): Term { Kdf2(USAGE_SHARED_SECRET, ecdh, brace) }
  function NextRoot(root: Term, k: Term): Term { Kdf2(USAGE_ROOT_KEY, root, k) }
  function ChainStart(newRoot: Term, k: Term): Term { Kdf2(USAGE_CHAIN_KEY, newRoot, k) }
  function NextChain(chain: Term): Term { Kdf1(USAGE_NEXT_CHAIN_KEY, chain) }
  function EncKey(chain: Term): Term { Kdf1(USAGE_MESSAGE_KEY, chain) }
  function MacKey(enc: Term): Term { Kdf1(USAGE_MAC_KEY, enc) }
  function ExtraKey(chain: Term): Term { Kdf2(USAGE_EXTRA_SYMM_KEY, Octet(EXTRA_KEY_MAGIC), chain) }

  /** The chain key n steps further on. */
  function ChainAt(start: Term, n: nat): Term {
    if n == 0 then start else NextChain(ChainAt(start, n - 1))
  }

  lemma {:induction false} ChainAtNext(start: Term, n: nat)
    ensures ChainAt(NextChain(start), n) == ChainAt(start, n + 1)
  {
    if n > 0 {
      ChainAtNext(start, n - 1);
    }
  }

  /** Chain keys that come from a fresh chain start never collide, neither across
      positions nor across chains. */
  lemma {:induction false} ChainAtInjective(root1: Term, k1: Term, m: nat, root2: Term, k2: Term, n: nat)
    requires ChainAt(ChainStart(root1, k1), m) == ChainAt(ChainStart(root2, k2), n)
    ensures m == n && root1 == root2 && k1 == k2
  {
    if m > 0 && n > 0 {
      ChainAtInjective(root1, k1, m - 1, root2, k2, n - 1);
    }
  }

  /** How many times a root key has been mixed. */
  function RootDepth(t: Term): nat {
    match t
    case Kdf2(u, a, _) => if u == USAGE_ROOT_KEY then 1 + RootDepth(a) else 0
    case _ => 0
  }
}
