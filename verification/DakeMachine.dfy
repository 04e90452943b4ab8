/**
 One conversation during the key exchange as an object: state and keys are assigned step by
 step in the order of src/otrng.c, and every message handler is proved to take the
 transition of module Dake.
 */
module DakeMachine {
  import opened Prelude
  import opened Keys
  import Dake

  class Conversation {
    const me: Dake.Peer
    var state: Dake.State
    var ourEcdh: EcPair
    var ourDh: DhPair
    var ourEcdhFirst: EcPair
    var ourDhFirst: DhPair
    var theirEcdh: KeyId
    var theirDh: KeyId
    var theirFirstEcdh: KeyId
    var theirFirstDh: KeyId
    var sharedSecret: Term
    var ssid: Term
    var ssidHalfFirst: bool
    var rootKey: Term

    function Own(): Dake.Pairs
      reads this
    {
      Dake.Pairs(ourEcdh, ourDh, ourEcdhFirst, ourDhFirst)
    }

    function Their(): Dake.Publics
      reads this
    {
      Dake.Publics(theirEcdh, theirDh, theirFirstEcdh, theirFirstDh)
    }

    function Snapshot(): Dake.Side
      reads this
    {
      Dake.Side(state, Own(), Their(), sharedSecret, ssid, ssidHalfFirst, rootKey)
    }

    constructor (peer: Dake.Peer, s: Dake.Side)
      ensures me == peer && Snapshot() == s
    {
      me, state := peer, s.state;
      ourEcdh, ourDh, ourEcdhFirst, ourDhFirst := s.own.ecdh, s.own.dh, s.own.ecdhFirst, s.own.dhFirst;
      theirEcdh, theirDh := s.their.ecdh, s.their.dh;
      theirFirstEcdh, theirFirstDh := s.their.ecdhFirst, s.their.dhFirst;
      sharedSecret, ssid, ssidHalfFirst, rootKey := s.sharedSecret, s.ssid, s.ssidHalfFirst, s.rootKey;
    }

    method SetTheirKeys(keys: Dake.Publics)
      modifies this`theirEcdh, this`theirDh, this`theirFirstEcdh, this`theirFirstDh
      ensures Their() == keys
    {
      theirEcdh := keys.ecdh;
      theirDh := keys.dh;
      theirFirstEcdh := keys.ecdhFirst;
      theirFirstDh := keys.dhFirst;
    }

    /** otrng_key_manager_generate_ephemeral_keys at ratchet 0: all four pairs are new. */
    method GenerateEphemeralKeys(n: nat)
      modifies this`ourEcdh, this`ourDh, this`ourEcdhFirst, this`ourDhFirst
      ensures Own() == Dake.FreshPairs(n)
    {
      ourEcdh := EcPair(Live(KeyId.Dake(2 * n)), KeyId.Dake(2 * n));
      ourEcdhFirst := EcPair(Live(KeyId.Dake(2 * n + 1)), KeyId.Dake(2 * n + 1));
      ourDh := DhPair(Some(KeyId.Dake(2 * n)), KeyId.Dake(2 * n));
      ourDhFirst := DhPair(Some(KeyId.Dake(2 * n + 1)), KeyId.Dake(2 * n + 1));
    }

    /** otrng_key_manager_generate_shared_secret, interactive. Without the DH private half the outcome is not
        defined, and nothing is said of it. */
    method GenerateSharedSecret(value: KeyId -> int) returns (ok: bool)
      modifies this`ourEcdh, this`ourDh, this`sharedSecret, this`ssid, this`ssidHalfFirst
      ensures ok <==> old(ourDh).priv.Some?
      ensures ok ==> Some(Snapshot()) == Dake.GenerateSharedSecret(old(Snapshot()), value)
    {
      var ecdhKey := Ecdh(ourEcdh.priv, theirEcdh);
      ourEcdh := EcPair(Erased, ourEcdh.pub);
      ok := ourDh.priv.Some?;
      if ok {
        MixSecrets(ecdhKey, value);
      }
    }

    method MixSecrets(ecdhKey: Term, value: KeyId -> int)
      requires ourDh.priv.Some?
      modifies this`ourDh, this`sharedSecret, this`ssid, this`ssidHalfFirst
      ensures ourDh == DhPair(None, old(ourDh).pub)
      ensures sharedSecret == Dake.DakeSecret(ecdhKey, Dh(old(ourDh).priv.value, theirDh))
      ensures ssid == Kdf1(USAGE_SSID, sharedSecret) && ssidHalfFirst == !(value(ourDh.pub) > value(theirDh))
    {
      CalculateSharedSecret(ecdhKey);
      CalculateSsid(value);
    }

    /** calculate_brace_key and calculate_shared_secret; the private half goes. */
    method CalculateSharedSecret(ecdhKey: Term)
      requires ourDh.priv.Some?
      modifies this`ourDh, this`sharedSecret
      ensures ourDh == DhPair(None, old(ourDh).pub)
      ensures sharedSecret == Dake.DakeSecret(ecdhKey, Dh(old(ourDh).priv.value, theirDh))
    {
      var braceKey := Kdf1(USAGE_THIRD_BRACE_KEY, Dh(ourDh.priv.value, theirDh));
      ourDh := DhPair(None, ourDh.pub);
      sharedSecret := Kdf2(USAGE_SHARED_SECRET, ecdhKey, braceKey);
    }

    /** calculate_ssid, and which half of it this side shows first. */
    method CalculateSsid(value: KeyId -> int)
      modifies this`ssid, this`ssidHalfFirst
      ensures ssid == Kdf1(USAGE_SSID, sharedSecret) && ssidHalfFirst == !(value(ourDh.pub) > value(theirDh))
    {
      ssid := Kdf1(USAGE_SSID, sharedSecret);
      if value(ourDh.pub) > value(theirDh) {
        ssidHalfFirst := false;
      } else {
        ssidHalfFirst := true;
      }
    }

    /** The keys sent for the first ratchet take the place of the ones used up. */
    method TakeFirstKeys()
      modifies this`ourEcdh, this`ourDh, this`theirEcdh, this`theirDh
      ensures Own() == Dake.Pairs(ourEcdhFirst, ourDhFirst, ourEcdhFirst, ourDhFirst)
      ensures Their() == Dake.Publics(theirFirstEcdh, theirFirstDh, theirFirstEcdh, theirFirstDh)
    {
      theirEcdh := theirFirstEcdh;
      ourEcdh := ourEcdhFirst;
      ourDh := ourDhFirst;
      theirDh := theirFirstDh;
    }

    /** generate_first_ephemeral_keys. */
    method GenerateFirstEphemeralKeys(isU: bool)
      modifies this`ourEcdh, this`ourDh, this`theirEcdh, this`theirDh
      ensures isU ==>
                && ourEcdh == EcPair(Live(Dake.FirstEcdh(sharedSecret)), Dake.FirstEcdh(sharedSecret))
                && ourDh == DhPair(Some(Dake.FirstDh(sharedSecret)), Dake.FirstDh(sharedSecret))
                && Their() == old(Their())
      ensures !isU ==>
                && theirEcdh == Dake.FirstEcdh(sharedSecret) && theirDh == Dake.FirstDh(sharedSecret)
                && Own() == old(Own())
    {
      var ecdh := Derived(Kdf1(USAGE_ECDH_FIRST_EPHEMERAL, sharedSecret));
      var dh := Derived(Kdf1(USAGE_DH_FIRST_EPHEMERAL, sharedSecret));
      if isU {
        ourEcdh := EcPair(Live(ecdh), ecdh);
        ourDh := DhPair(Some(dh), dh);
      } else {
        theirEcdh := ecdh;
        theirDh := dh;
      }
    }

    /** The exchange of keys for the ratchet, then otrng_key_manager_ratcheting_init. */
    method StartRatchet(isU: bool)
      modifies this`ourEcdh, this`ourDh, this`theirEcdh, this`theirDh, this`rootKey, this`sharedSecret
      ensures Snapshot() == Dake.RatchetingInit(old(Snapshot()), isU)
    {
      TakeFirstKeys();
      GenerateFirstEphemeralKeys(isU);
      rootKey := Kdf1(USAGE_FIRST_ROOT_KEY, sharedSecret);
      sharedSecret := Zeros;
    }

    method BuildIdentityMessage(n: nat) returns (msg: Dake.Message)
      modifies this
      ensures Dake.Outcome(Snapshot(), Some(msg)) == Dake.BuildIdentityMessage(old(Snapshot()), n)
    {
      GenerateEphemeralKeys(n);
      state := Dake.WaitingAuthR;
      msg := Dake.Identity(Dake.PublicsOf(Own()));
    }

    /** receive_identity_message_on_state_start. */
    method AnswerIdentity(keys: Dake.Publics, n: nat, c: Dake.Setting) returns (reply: Dake.Message)
      modifies this
      ensures Dake.Outcome(Snapshot(), Some(reply)) == Dake.AnswerIdentity(me, old(Snapshot()), keys, n, c)
    {
      SetTheirKeys(keys);
      GenerateEphemeralKeys(n);
      var tag := Dake.TagAsResponder(me, Snapshot(), true, c.phi);
      reply := Dake.AuthR(Dake.PublicsOf(Own()), Dake.AuthRSigma(me, theirEcdh, tag));
      var ok := GenerateSharedSecret(c.value);
      state := Dake.WaitingAuthI;
    }

    /** receive_identity_message in every state. */
    method ReceiveIdentity(keys: Dake.Publics, n: nat, c: Dake.Setting)
      returns (reply: Option<Dake.Message>)
      modifies this
      ensures Dake.Outcome(Snapshot(), reply) == Dake.ReceiveIdentity(me, old(Snapshot()), keys, n, c)
    {
      if !c.valid(keys) {
        return None;
      }
      if state == Dake.WaitingAuthR {
        if c.value(ourDh.pub) > c.value(keys.dh) {
          return None;
        }
      }
      var msg := AnswerIdentity(keys, n, c);
      reply := Some(msg);
    }

    /** receive_auth_r. */
    method ReceiveAuthR(keys: Dake.Publics, sigma: Dake.Sigma, c: Dake.Setting)
      returns (defined: bool, reply: Option<Dake.Message>)
      modifies this
      ensures defined <==> Dake.ReceiveAuthR(me, old(Snapshot()), keys, sigma, c) != Dake.Undefined
      ensures defined ==>
                Dake.Outcome(Snapshot(), reply) == Dake.ReceiveAuthR(me, old(Snapshot()), keys, sigma, c)
    {
      if state != Dake.WaitingAuthR || !c.valid(keys) {
        return true, None;
      }
      var tagR := Dake.TagAsInitiator(me, Snapshot(), keys.ecdh, keys.dh, true, c.phi);
      if sigma != Dake.AuthRSigma(Dake.OtherPeer(me), ourEcdh.pub, tagR) {
        return true, None;
      }
      SetTheirKeys(keys);
      var tagI := Dake.TagAsInitiator(me, Snapshot(), theirEcdh, theirDh, false, c.phi);
      reply := Some(Dake.AuthI(Dake.AuthISigma(me, theirEcdh, tagI)));
      defined := GenerateSharedSecret(c.value);
      if defined {
        StartRatchet(true);
        state := Dake.WaitingDakeData;
      }
    }

    /** receive_auth_i, up to the first data message it goes on to send. */
    method ReceiveAuthI(sigma: Dake.Sigma, c: Dake.Setting)
      modifies this
      ensures Dake.Outcome(Snapshot(), None) == Dake.ReceiveAuthI(me, old(Snapshot()), sigma, c)
    {
      if state != Dake.WaitingAuthI {
        return;
      }
      var tag := Dake.TagAsResponder(me, Snapshot(), false, c.phi);
      if sigma != Dake.AuthISigma(Dake.OtherPeer(me), ourEcdh.pub, tag) {
        return;
      }
      StartRatchet(false);
      state := Dake.Encrypted;
    }

    method Receive(msg: Dake.Message, n: nat, c: Dake.Setting) returns (defined: bool, reply: Option<Dake.Message>)
      modifies this
      ensures defined <==> Dake.ReceiveMessage(me, old(Snapshot()), msg, n, c) != Dake.Undefined
      ensures defined ==> Dake.Outcome(Snapshot(), reply) == Dake.ReceiveMessage(me, old(Snapshot()), msg, n, c)
    {
      defined, reply := true, None;
      match msg {
        case Identity(keys) => reply := ReceiveIdentity(keys, n, c);
        case AuthR(keys, sigma) => defined, reply := ReceiveAuthR(keys, sigma, c);
        case AuthI(sigma) => ReceiveAuthI(sigma, c);
      }
    }
  }
}
