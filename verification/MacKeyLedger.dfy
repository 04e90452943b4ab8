/**
 The key manager together with the linked list its stored MAC keys are in: the list on the heap
 holds, byte for byte, the keys the run theorems speak of.
 */
module MacKeyLedger {
  import opened Prelude
  import opened Bytes
  import opened Keys
  import KM = KeyManager
  import opened RatchetMachine
  import opened MacReveal

  /** The 64 bytes of a MAC key. */
  type Encoding = Term -> seq<Byte>

  ghost predicate Fits(bytesOf: Encoding) { forall t :: |bytesOf(t)| == MAC_KEY_BYTES }

  function Encoded(keys: seq<Term>, bytesOf: Encoding): (e: seq<seq<Byte>>)
    ensures |e| == |keys| && forall i | 0 <= i < |keys| :: e[i] == bytesOf(keys[i])
  {
    seq(|keys|, i requires 0 <= i < |keys| => bytesOf(keys[i]))
  }

  lemma {:induction false} EncodedReversed(keys: seq<Term>, bytesOf: Encoding)
    ensures Encoded(KM.Reversed(keys), bytesOf) == KM.Reversed(Encoded(keys, bytesOf))
  {
    if keys != [] {
      EncodedReversed(keys[1..], bytesOf);
      assert Encoded(keys, bytesOf)[1..] == Encoded(keys[1..], bytesOf);
      assert Encoded(KM.Reversed(keys[1..]) + [keys[0]], bytesOf)
          == Encoded(KM.Reversed(keys[1..]), bytesOf) + [bytesOf(keys[0])];
    }
  }

  /** The bytes that reveal these keys, in this order. */
  function RevealedBytes(keys: seq<Term>, bytesOf: Encoding): seq<Byte>
    requires Fits(bytesOf)
  {
    Flatten(Encoded(keys, bytesOf))
  }

  /** What a send does to the stored MAC keys. */
  lemma SendReveals(m: KM.Manager, newKey: KeyId, payload: string)
    ensures var sent := KM.Send(m, newKey, payload);
            sent.Some? ==>
              if sent.value.msg.body.id == 0
              then sent.value.msg.revealed == KM.Reversed(m.oldMacKeys) && sent.value.after.oldMacKeys == []
              else sent.value.msg.revealed == [] && sent.value.after.oldMacKeys == m.oldMacKeys
  {
    match KM.RotateSending(m, newKey)
    case None =>
    case Some(m1) => assert m1.oldMacKeys == m.oldMacKeys && m1.n.j == m.n.j;
  }

  class Ledger {
    const manager: RatchetKeys
    const store: MacKeyStore
    const bytesOf: Encoding

    /** The list holds the manager's keys. */
    ghost predicate Valid()
      reads this, manager, store, store.nodes
    {
      Fits(bytesOf) && store.Valid() && store.keys == Encoded(manager.oldMacKeys, bytesOf)
    }

    constructor (m: RatchetKeys, encoding: Encoding)
      requires Fits(encoding) && m.oldMacKeys == []
      ensures Valid() && manager == m && bytesOf == encoding && fresh(store) && store.nodes == []
    {
      manager := m;
      bytesOf := encoding;
      store := new MacKeyStore();
    }

    /** send_data_message: the keys that go out with the message are the bytes of the list. */
    method Send(newKey: KeyId, payload: string)
      returns (msg: KM.DataMessage, keys: KM.MessageKeys, revealed: array?<Byte>)
      requires Valid()
      modifies manager, store, store.nodes
      ensures Valid()
      ensures KM.Send(old(manager.State()), newKey, payload) == Some(KM.Sent(manager.State(), msg, keys))
      ensures revealed == null <==> msg.revealed == []
      ensures revealed != null ==> revealed[..] == RevealedBytes(msg.revealed, bytesOf)
    {
      ghost var before := manager.State();
      SendReveals(before, newKey, payload);
      msg, keys := manager.Send(newKey, payload);
      revealed := null;
      if msg.body.id == 0 {
        EncodedReversed(before.oldMacKeys, bytesOf);
        revealed := store.RevealAndForget();
      }
    }

    /** otrng_receive_data_message_after_dake: the MAC key of an accepted message joins the list, unless
        handling its TLVs fails. */
    method Receive(msg: KM.DataMessage, maxSkip: nat, handled: bool)
      returns (defined: bool, r: Option<(string, KM.MessageKeys)>)
      requires Valid()
      modifies manager, store, store.nodes
      ensures defined <==> KM.Receive(old(manager.State()), msg, maxSkip) != KM.Undefined
      ensures defined ==> Valid()
      ensures defined && r.None? ==>
                KM.Receive(old(manager.State()), msg, maxSkip)
                == KM.Rejected(manager.State(), old(manager.State()).skipped != [])
      ensures defined && r.Some? ==>
                && KM.Receive(old(manager.State()), msg, maxSkip)
                   == KM.Accepted(manager.State().(oldMacKeys := old(manager.oldMacKeys) + [r.value.1.mac]),
                                  r.value.0, r.value.1)
                && manager.oldMacKeys == old(manager.oldMacKeys) + (if handled then [r.value.1.mac] else [])
    {
      defined, r := manager.Receive(msg, maxSkip, handled);
      if defined && r.Some? && handled {
        store.Store(bytesOf(r.value.1.mac));
      }
    }
  }
}
