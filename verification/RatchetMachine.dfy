/**
 The key manager and the temporary receiving ratchet as objects whose fields are overwritten
 step by step, in the order of src/key_management.c. Every method is proved to compute the
 corresponding function of module KeyManager, about which the results on sessions are stated.
 */
module RatchetMachine {
  import opened Prelude
  import opened Keys
  import KM = KeyManager

  class ReceivingRatchet {
    var ourEcdhPriv: EcPriv
    var theirEcdh: KeyId
    var theirDh: KeyId
    var i: nat
    var j: nat
    var k: nat
    var pn: nat
    var rootKey: Term
    var chainR: Term
    var braceKey: Term
    var sharedSecret: Term
    var extraSymmetricKey: Term
    var skippedKeys: seq<KM.Skipped>

    function State(): KM.Temp
      reads this
    {
      KM.Temp(ourEcdhPriv, theirEcdh, theirDh, KM.Counters(i, j, k, pn), rootKey, chainR,
              KM.Scratch(braceKey, sharedSecret, extraSymmetricKey), skippedKeys)
    }

    /** otrng_receiving_ratchet_new, then the keys of the message. */
    constructor (manager: RatchetKeys, msgEcdh: KeyId, msgDh: KeyId)
      ensures State() == KM.TempNew(manager.State(), msgEcdh, msgDh)
    {
      ourEcdhPriv := manager.ourEcdh.priv;
      theirEcdh, theirDh := msgEcdh, msgDh;
      i, j, k, pn := manager.i, manager.j, manager.k, manager.pn;
      rootKey, chainR := manager.rootKey, manager.chainR;
      braceKey, sharedSecret := Zeros, Zeros;
      extraSymmetricKey := manager.extraSymmetricKey;
      skippedKeys := manager.skippedKeys;
    }

    /** store_enc_keys; ecdh is the key of the chain being closed or continued. */
    method StoreEncKeys(until: nat, maxSkip: nat, ecdh: KeyId)
      modifies this
      ensures State() == KM.StoreEncKeys(old(State()), until, maxSkip, ecdh)
    {
      if (k + maxSkip) % 0x1_0000_0000 < until {
        return;
      }
      if chainR != Zeros {
        while k < until
          invariant KM.StoreLoop(State(), until, ecdh) == KM.StoreLoop(old(State()), until, ecdh)
          decreases until - k
        {
          var encKey := Kdf1(USAGE_MESSAGE_KEY, chainR);
          var extraKey := Kdf2(USAGE_EXTRA_SYMM_KEY, Octet(EXTRA_KEY_MAGIC), chainR);
          chainR := Kdf1(USAGE_NEXT_CHAIN_KEY, chainR);
          skippedKeys := skippedKeys + [KM.Skipped(ecdh, k, extraKey, encKey)];
          k := k + 1;
        }
      }
    }

    /** otrng_key_get_skipped_keys: take the first entry for this ratchet key and message id. */
    method GetSkippedKeys(msgEcdh: KeyId, msgId: nat) returns (keys: Option<KM.MessageKeys>)
      modifies this`skippedKeys, this`extraSymmetricKey
      ensures keys.None? <==> KM.FindSkipped(old(skippedKeys), msgEcdh, msgId).None?
      ensures keys.None? ==> State() == old(State())
      ensures keys.Some? ==>
                var n := KM.FindSkipped(old(skippedKeys), msgEcdh, msgId).value;
                var e := old(skippedKeys)[n];
                && keys.value == KM.MessageKeys(e.enc, MacKey(e.enc), e.extra)
                && skippedKeys == KM.RemoveAt(old(skippedKeys), n) && extraSymmetricKey == e.extra
    {
      var n := 0;
      while n < |skippedKeys|
        invariant n <= |skippedKeys| && State() == old(State())
        invariant forall p | 0 <= p < n :: !KM.Matches(skippedKeys[p], msgEcdh, msgId)
      {
        var current := skippedKeys[n];
        if current.theirEcdh == msgEcdh && current.k == msgId {
          assert KM.Matches(current, msgEcdh, msgId) && current in skippedKeys;
          var encKey := current.enc;
          var macKey := Kdf1(USAGE_MAC_KEY, encKey);
          extraSymmetricKey := current.extra;
          skippedKeys := skippedKeys[..n] + skippedKeys[n + 1..];
          return Some(KM.MessageKeys(encKey, macKey, current.extra));
        }
        n := n + 1;
      }
      keys := None;
    }

    /** calculate_shared_secret and key_manager_derive_ratchet_keys for receiving. */
    method MixIn(ecdhKey: Term)
      modifies this`rootKey, this`chainR, this`sharedSecret, this`braceKey
      ensures rootKey == NextRoot(old(rootKey), MixedSecret(ecdhKey, old(braceKey)))
      ensures chainR == ChainStart(rootKey, MixedSecret(ecdhKey, old(braceKey)))
      ensures braceKey == sharedSecret == Zeros
    {
      sharedSecret := Kdf2(USAGE_SHARED_SECRET, ecdhKey, braceKey);
      braceKey := Zeros;
      rootKey := Kdf2(USAGE_ROOT_KEY, rootKey, sharedSecret);
      chainR := Kdf2(USAGE_CHAIN_KEY, rootKey, sharedSecret);
      sharedSecret := Zeros;
    }

    /** The counters of a new receiving chain; the own scalar has been used. */
    method StartChain()
      modifies this`ourEcdhPriv, this`i, this`j, this`k, this`pn
      ensures ourEcdhPriv == Erased && pn == old(j) && j == 0 && k == 0 && i == old(i) + 1
    {
      ourEcdhPriv := Erased;
      pn := j;
      j := 0;
      k := 0;
      i := i + 1;
    }

    /** otrng_key_manager_derive_chain_keys for receiving, then the step of the id. */
    method DeriveChainKeys(msgId: nat, maxSkip: nat, ghost m: KM.Manager) returns (keys: KM.MessageKeys)
      modifies this
      ensures KM.DeriveChainKeysReceiving(m, old(State()), msgId, maxSkip) == KM.Attempt(m, State(), keys)
    {
      StoreEncKeys(msgId, maxSkip, theirEcdh);
      var encKey := Kdf1(USAGE_MESSAGE_KEY, chainR);
      var macKey := Kdf1(USAGE_MAC_KEY, encKey);
      extraSymmetricKey := Kdf2(USAGE_EXTRA_SYMM_KEY, Octet(EXTRA_KEY_MAGIC), chainR);
      chainR := Kdf1(USAGE_NEXT_CHAIN_KEY, chainR);
      k := k + 1;
      keys := KM.MessageKeys(encKey, macKey, extraSymmetricKey);
    }
  }

  class RatchetKeys {
    var ourEcdh: EcPair
    var ourDh: DhPair
    var theirEcdh: KeyId
    var theirDh: KeyId
    var i: nat
    var j: nat
    var k: nat
    var pn: nat
    var rootKey: Term
    var chainS: Term
    var chainR: Term
    var braceKey: Term
    var sharedSecret: Term
    var extraSymmetricKey: Term
    var skippedKeys: seq<KM.Skipped>
    var oldMacKeys: seq<Term>

    function State(): KM.Manager
      reads this
    {
      KM.Manager(KM.KeyPairs(ourEcdh, ourDh, theirEcdh, theirDh), KM.Counters(i, j, k, pn),
                 KM.Chains(rootKey, chainS, chainR), KM.Scratch(braceKey, sharedSecret, extraSymmetricKey),
                 skippedKeys, oldMacKeys)
    }

    constructor (m: KM.Manager)
      ensures State() == m
    {
      ourEcdh, ourDh, theirEcdh, theirDh := m.pairs.ourEcdh, m.pairs.ourDh, m.pairs.theirEcdh, m.pairs.theirDh;
      i, j, k, pn := m.n.i, m.n.j, m.n.k, m.n.pn;
      rootKey, chainS, chainR := m.chains.rootKey, m.chains.chainS, m.chains.chainR;
      braceKey, sharedSecret, extraSymmetricKey := m.scratch.braceKey, m.scratch.sharedSecret, m.scratch.extra;
      skippedKeys, oldMacKeys := m.skipped, m.oldMacKeys;
    }

    // ------------------------------------------------------------- sending

    method GenerateEphemeralKeys(newKey: KeyId)
      modifies this`ourEcdh, this`ourDh
      ensures State().pairs == KM.GenerateEphemeralKeys(i, old(State()).pairs, newKey)
    {
      ourEcdh := EcPair(Live(newKey), newKey);
      if i % 3 == 0 {
        ourDh := DhPair(Some(newKey), newKey);
      }
    }

    /** calculate_brace_key for sending: the private half has just been made when it is needed. */
    method CalculateBraceKeySending()
      requires i % 3 == 0 ==> ourDh.priv.Some?
      modifies this`braceKey
      ensures Some(braceKey) == KM.BraceKey(i, ourDh.priv, theirDh, old(braceKey))
    {
      if i % 3 == 0 {
        braceKey := Kdf1(USAGE_THIRD_BRACE_KEY, Dh(ourDh.priv.value, theirDh));
      } else {
        braceKey := Kdf1(USAGE_BRACE_KEY, braceKey);
      }
    }

    /** calculate_shared_secret for sending. */
    method CalculateSharedSecretSending(ecdhKey: Term)
      modifies this`sharedSecret, this`braceKey
      ensures sharedSecret == MixedSecret(ecdhKey, old(braceKey)) && braceKey == Zeros
    {
      sharedSecret := Kdf2(USAGE_SHARED_SECRET, ecdhKey, braceKey);
      braceKey := Zeros;
    }

    /** key_manager_derive_ratchet_keys for sending: the chain key comes from the new root key. */
    method DeriveRatchetKeysSending()
      modifies this`rootKey, this`chainS, this`sharedSecret
      ensures rootKey == NextRoot(old(rootKey), old(sharedSecret))
      ensures chainS == ChainStart(rootKey, old(sharedSecret)) && sharedSecret == Zeros
    {
      rootKey := Kdf2(USAGE_ROOT_KEY, rootKey, sharedSecret);
      chainS := Kdf2(USAGE_CHAIN_KEY, rootKey, sharedSecret);
      sharedSecret := Zeros;
    }

    /** enter_new_ratchet for sending. */
    method EnterNewRatchetSending()
      requires i % 3 == 0 ==> ourDh.priv.Some?
      modifies this`rootKey, this`chainS, this`sharedSecret, this`braceKey
      ensures KM.EnterNewRatchet(i, State().pairs, theirEcdh, theirDh, old(braceKey), old(rootKey))
              == Some(KM.Mixed(rootKey, chainS))
      ensures braceKey == Zeros && sharedSecret == Zeros
    {
      var ecdhKey := Ecdh(ourEcdh.priv, theirEcdh);
      CalculateBraceKeySending();
      CalculateSharedSecretSending(ecdhKey);
      DeriveRatchetKeysSending();
    }

    /** rotate_keys for sending. */
    method RotateSending(newKey: KeyId)
      modifies this
      ensures KM.RotateSending(old(State()), newKey) == Some(State())
    {
      GenerateEphemeralKeys(newKey);
      EnterNewRatchetSending();
      i := i + 1;
    }

    /** send_data_message up to the encoding. */
    method Send(newKey: KeyId, payload: string) returns (msg: KM.DataMessage, keys: KM.MessageKeys)
      modifies this
      ensures KM.Send(old(State()), newKey, payload) == Some(KM.Sent(State(), msg, keys))
    {
      var ratchetId := i;
      if j == 0 {
        RotateSending(newKey);
      }
      msg, keys := SendOnChain(ratchetId, payload);
    }

    method SendOnChain(ratchetId: nat, payload: string) returns (msg: KM.DataMessage, keys: KM.MessageKeys)
      modifies this
      ensures KM.SendOnChain(old(State()), ratchetId, payload) == KM.Sent(State(), msg, keys)
    {
      var encKey := Kdf1(USAGE_MESSAGE_KEY, chainS);
      var macKey := Kdf1(USAGE_MAC_KEY, encKey);
      extraSymmetricKey := Kdf2(USAGE_EXTRA_SYMM_KEY, Octet(EXTRA_KEY_MAGIC), chainS);
      chainS := Kdf1(USAGE_NEXT_CHAIN_KEY, chainS);
      keys := KM.MessageKeys(encKey, macKey, extraSymmetricKey);
      var body := KM.Body(ourEcdh.pub, ourDh.pub, pn, ratchetId, j, encKey, payload);
      var revealed := [];
      if j == 0 {
        revealed := KM.Reversed(oldMacKeys);
        oldMacKeys := [];
      }
      msg := KM.DataMessage(body, KM.Authenticator(macKey, body), revealed);
      j := j + 1;
    }

    // ----------------------------------------------------------- receiving

    /** calculate_brace_key for receiving: into the temporary ratchet, from this brace key. Without the
        private half the source's behaviour is not defined, and nothing more is said of it. */
    method CalculateBraceKeyReceiving(tmp: ReceivingRatchet) returns (ok: bool)
      modifies tmp`braceKey
      ensures ok ==> KM.BraceKey(i, ourDh.priv, tmp.theirDh, braceKey) == Some(tmp.braceKey)
      ensures !ok ==> KM.BraceKey(i, ourDh.priv, tmp.theirDh, braceKey) == None
    {
      if i % 3 == 0 {
        if ourDh.priv.None? {
          return false;
        }
        tmp.braceKey := Kdf1(USAGE_THIRD_BRACE_KEY, Dh(ourDh.priv.value, tmp.theirDh));
      } else {
        tmp.braceKey := Kdf1(USAGE_BRACE_KEY, braceKey);
      }
      ok := true;
    }

    /** enter_new_ratchet for receiving. */
    method EnterNewRatchetReceiving(tmp: ReceivingRatchet) returns (ok: bool)
      modifies tmp`rootKey, tmp`chainR, tmp`sharedSecret, tmp`braceKey
      ensures var mixed := KM.EnterNewRatchet(i, State().pairs, tmp.theirEcdh, tmp.theirDh, braceKey, old(tmp.rootKey));
              if ok then mixed == Some(KM.Mixed(tmp.rootKey, tmp.chainR)) && tmp.braceKey == tmp.sharedSecret == Zeros
              else mixed == None
    {
      var ecdhKey := Ecdh(ourEcdh.priv, tmp.theirEcdh);
      ok := CalculateBraceKeyReceiving(tmp);
      if ok {
        tmp.MixIn(ecdhKey);
      }
    }

    /** rotate_keys for receiving: the new keys go to the temporary ratchet, but the 3072-bit
        private half is erased here. */
    method RotateReceiving(tmp: ReceivingRatchet) returns (ok: bool)
      requires tmp.i == i
      modifies tmp, this`ourDh
      ensures ok ==> KM.RotateReceiving(old(State()), old(tmp.State())) == Some(tmp.State())
      ensures ok ==> State() == KM.EraseDhOnRotate(old(State()))
      ensures !ok ==> KM.RotateReceiving(old(State()), old(tmp.State())) == None
    {
      ok := EnterNewRatchetReceiving(tmp);
      if ok {
        DestroyDhPrivate(tmp.i);
        tmp.StartChain();
      }
    }

    /** otrng_dh_priv_key_destroy on every third ratchet. */
    method DestroyDhPrivate(ratchet: nat)
      modifies this`ourDh
      ensures ourDh == if ratchet % 3 == 0 then old(ourDh).(priv := None) else old(ourDh)
    {
      if ratchet % 3 == 0 {
        ourDh := DhPair(None, ourDh.pub);
      }
    }

    /** The three ways to the keys of a message: stored, on the current chain, on a new one. */
    method DeriveKeys(tmp: ReceivingRatchet, body: KM.Body, maxSkip: nat) returns (keys: Option<KM.MessageKeys>)
      requires tmp.State() == KM.TempNew(State(), body.ecdh, body.dh)
      modifies tmp, this`ourDh
      ensures keys.Some? ==> KM.DeriveKeys(old(State()), body, maxSkip) == KM.Attempt(State(), tmp.State(), keys.value)
      ensures keys.None? ==> KM.DeriveKeys(old(State()), body, maxSkip) == KM.HalfMissing
    {
      keys := tmp.GetSkippedKeys(body.ecdh, body.id);
      if keys.Some? {
        return;
      }
      if body.ecdh != theirEcdh {
        tmp.StoreEncKeys(body.pn, maxSkip, theirEcdh);
        StoreKeepsCounters(KM.TempNew(State(), body.ecdh, body.dh), body.pn, maxSkip, theirEcdh);
        var ok := RotateReceiving(tmp);
        if !ok {
          return None;
        }
      }
      var derived := tmp.DeriveChainKeys(body.id, maxSkip, State());
      keys := Some(derived);
    }

    /** otrng_receiving_ratchet_copy. */
    method CopyFrom(src: ReceivingRatchet)
      modifies this
      ensures State() == KM.Commit(old(State()), src.State())
    {
      CopyKeys(src);
      CopyCounters(src);
      CopyChains(src);
      skippedKeys := src.skippedKeys;
    }

    method CopyKeys(src: ReceivingRatchet)
      modifies this`ourEcdh, this`theirEcdh, this`theirDh
      ensures ourEcdh == old(ourEcdh).(priv := src.ourEcdhPriv)
      ensures theirEcdh == src.theirEcdh && theirDh == src.theirDh
    {
      ourEcdh := EcPair(src.ourEcdhPriv, ourEcdh.pub);
      theirEcdh, theirDh := src.theirEcdh, src.theirDh;
    }

    method CopyCounters(src: ReceivingRatchet)
      modifies this`i, this`j, this`k, this`pn
      ensures i == src.i && j == src.j && k == src.k && pn == src.pn
    {
      i, j, k, pn := src.i, src.j, src.k, src.pn;
    }

    method CopyChains(src: ReceivingRatchet)
      modifies this`rootKey, this`chainR, this`braceKey, this`sharedSecret, this`extraSymmetricKey
      ensures rootKey == src.rootKey && chainR == src.chainR
      ensures braceKey == src.braceKey && sharedSecret == src.sharedSecret
      ensures extraSymmetricKey == src.extraSymmetricKey
    {
      braceKey, sharedSecret := src.braceKey, src.sharedSecret;
      rootKey, chainR := src.rootKey, src.chainR;
      extraSymmetricKey := src.extraSymmetricKey;
    }

    /** otrng_receive_data_message_after_dake, from the decoded message to the stored MAC key, which is only
        stored when the TLVs are handled. Nothing is said of a receive that is not defined. */
    method Receive(msg: KM.DataMessage, maxSkip: nat, handled: bool)
      returns (defined: bool, r: Option<(string, KM.MessageKeys)>)
      modifies this
      ensures defined <==> KM.Receive(old(State()), msg, maxSkip) != KM.Undefined
      ensures defined && r.None? ==>
                KM.Receive(old(State()), msg, maxSkip) == KM.Rejected(State(), old(State()).skipped != [])
      ensures defined && r.Some? ==>
                && KM.Receive(old(State()), msg, maxSkip)
                   == KM.Accepted(State().(oldMacKeys := old(oldMacKeys) + [r.value.1.mac]), r.value.0, r.value.1)
                && oldMacKeys == old(oldMacKeys) + (if handled then [r.value.1.mac] else [])
    {
      var tmp := new ReceivingRatchet(this, msg.body.ecdh, msg.body.dh);
      ghost var m := State();
      var keys := DeriveKeys(tmp, msg.body, maxSkip);
      if keys.None? {
        return false, None;
      }
      if !KM.ValidDataMessage(keys.value.mac, msg) || !KM.Decrypts(keys.value.enc, msg.body) {
        ShareSkipped(tmp);
        return true, None;
      }
      CopyFrom(tmp);
      if handled {
        oldMacKeys := oldMacKeys + [keys.value.mac];
      }
      defined, r := true, Some((msg.body.payload, keys.value));
    }

    /** A list of skipped keys that was not empty is shared with the temporary ratchet. When the
        authenticator was wrong the source frees that list here, and this field is left
        pointing at it: what is kept then stands for entries that no longer exist. */
    method ShareSkipped(tmp: ReceivingRatchet)
      modifies this`skippedKeys
      ensures skippedKeys == KM.LeftBehind(old(State()), tmp.State())
    {
      if skippedKeys != [] {
        skippedKeys := tmp.skippedKeys;
      }
    }
  }

  lemma {:induction false} StoreLoopKeeps(t: KM.Temp, until: nat, ecdh: KeyId)
    ensures KM.StoreLoop(t, until, ecdh).n.i == t.n.i
    decreases until - t.n.k
  {
    if t.n.k < until {
      StoreLoopKeeps(t.(chainR := NextChain(t.chainR), skipped := t.skipped + [KM.SkippedAt(ecdh, t.n.k, t.chainR)],
                        n := t.n.(k := t.n.k + 1)),
                     until, ecdh);
    }
  }

  /** Storing keys does not touch the ratchet id. */
  lemma StoreKeepsCounters(t: KM.Temp, until: nat, maxSkip: nat, ecdh: KeyId)
    ensures KM.StoreEncKeys(t, until, maxSkip, ecdh).n.i == t.n.i
  {
    StoreLoopKeeps(t, until, ecdh);
  }
}
