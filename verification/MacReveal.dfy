/**
 The stored MAC keys as bytes: how they are kept in the linked list after a message has been
 accepted, and how the first message of a new ratchet reveals and empties that list.
 */
module MacReveal {
  import opened Prelude
  import opened Bytes
  import opened LinkedList
  import KM = KeyManager

  const MAC_KEY_BYTES := 64

  /** The byte strings one after the other. */
  function Flatten(keys: seq<seq<Byte>>): (bytes: seq<Byte>)
    requires forall k | k in keys :: |k| == MAC_KEY_BYTES
    ensures |bytes| == |keys| * MAC_KEY_BYTES
  {
    if keys == [] then [] else Flatten(keys[..|keys| - 1]) + keys[|keys| - 1]
  }

  /** A list of whole MAC keys, none of them missing. */
  ghost predicate HoldsKeys(nodes: seq<Node<seq<Byte>>>, keys: seq<seq<Byte>>)
    reads nodes
  {
    && |nodes| == |keys|
    && forall i: nat | i < |nodes| :: nodes[i].data == Some(keys[i]) && |keys[i]| == MAC_KEY_BYTES
  }

  lemma AddedOne<T>(s: seq<T>, t: seq<T>)
    requires |t| == |s| + 1 && t[..|s|] == s
    ensures forall x | x in t :: x in s || x == t[|s|]
  {
    assert t == s + [t[|s|]];
  }

  /** otrng_store_old_mac_keys: a copy of the key is added at the end. */
  method StoreOldMacKey(head: Node?<seq<Byte>>, key: seq<Byte>, ghost nodes: seq<Node<seq<Byte>>>,
                        ghost keys: seq<seq<Byte>>)
    returns (head': Node<seq<Byte>>, ghost nodes': seq<Node<seq<Byte>>>)
    requires IsList(head, nodes) && HoldsKeys(nodes, keys) && |key| == MAC_KEY_BYTES
    modifies nodes
    ensures IsList(head', nodes') && HoldsKeys(nodes', keys + [key])
    ensures forall n | n in nodes' :: n in nodes || fresh(n)
  {
    ghost var was := Contents(nodes);
    head', nodes' := Add(Some(key), head, nodes);
    forall i: nat | i < |nodes'|
      ensures nodes'[i].data == Some((keys + [key])[i])
    {
      assert nodes'[i].data == Contents(nodes')[i] == (was + [Some(key)])[i];
    }
    AddedOne(nodes, nodes');
  }

  lemma {:induction false} ReversedShape<T>(s: seq<T>)
    ensures |KM.Reversed(s)| == |s| && multiset(KM.Reversed(s)) == multiset(s)
    ensures forall k | k in KM.Reversed(s) :: k in s
  {
    if s != [] {
      ReversedShape(s[1..]);
      assert s == [s[0]] + s[1..];
    }
  }

  /** What is revealed of a list of keys: all of them, last first. */
  function Revealed(keys: seq<seq<Byte>>): (bytes: seq<Byte>)
    requires forall k | k in keys :: |k| == MAC_KEY_BYTES
    ensures |bytes| == |keys| * MAC_KEY_BYTES
  {
    ReversedShape(keys);
    Flatten(KM.Reversed(keys))
  }

  /** The key before those already revealed comes next. */
  lemma RevealedStep(key: seq<Byte>, rest: seq<seq<Byte>>)
    requires |key| == MAC_KEY_BYTES && forall k | k in rest :: |k| == MAC_KEY_BYTES
    ensures Revealed([key] + rest) == Revealed(rest) + key
  {
    var s := [key] + rest;
    assert s[1..] == rest;
    ReversedShape(rest);
    var r := KM.Reversed(s);
    assert r[..|r| - 1] == KM.Reversed(rest) && r[|r| - 1] == key;
  }

  /** How far the loop has come: the last keys are done, their bytes written. */
  ghost predicate Progress(keys: seq<seq<Byte>>, kept: seq<seq<Byte>>, done: seq<seq<Byte>>, written: seq<Byte>) {
    && kept + done == keys
    && (forall k | k in done :: |k| == MAC_KEY_BYTES)
    && written == Revealed(done)
  }

  lemma ProgressStep(keys: seq<seq<Byte>>, kept: seq<seq<Byte>>, done: seq<seq<Byte>>, written: seq<Byte>)
    requires Progress(keys, kept, done, written) && kept != []
    requires forall k | k in keys :: |k| == MAC_KEY_BYTES
    ensures var key := kept[|kept| - 1];
            Progress(keys, kept[..|kept| - 1], [key] + done, written + key)
  {
    var key := kept[|kept| - 1];
    assert key in keys;
    assert kept[..|kept| - 1] + ([key] + done) == kept + done;
    RevealedStep(key, done);
  }

  lemma WithoutLast<T>(s: seq<T>)
    requires s != []
    ensures Without(s, |s| - 1) == s[..|s| - 1]
  {
  }

  lemma FirstKeys(nodes: seq<Node<seq<Byte>>>, keys: seq<seq<Byte>>, n: nat)
    requires HoldsKeys(nodes, keys) && n <= |keys|
    ensures HoldsKeys(nodes[..n], keys[..n])
  {
  }

  /** The last element's key is copied, the element unlinked. */
  method RevealLast(head: Node<seq<Byte>>, ghost nodes: seq<Node<seq<Byte>>>, ghost keys: seq<seq<Byte>>,
                    buffer: array<Byte>, at: nat)
    returns (head': Node?<seq<Byte>>, ghost nodes': seq<Node<seq<Byte>>>)
    requires IsList(head, nodes) && HoldsKeys(nodes, keys) && at + MAC_KEY_BYTES <= buffer.Length
    modifies nodes, buffer
    ensures IsList(head', nodes') && nodes' == nodes[..|nodes| - 1]
    ensures HoldsKeys(nodes', keys[..|keys| - 1])
    ensures buffer[..at + MAC_KEY_BYTES] == old(buffer[..at]) + keys[|keys| - 1]
  {
    var last := GetLast(head, nodes);
    var key := last.data.value;
    CopyInto(buffer, at, key);
    head', nodes' := RemoveElement(last, head, nodes);
    WithoutLast(nodes);
    FirstKeys(nodes, keys, |keys| - 1);
  }

  lemma AllDone(keys: seq<seq<Byte>>, done: seq<seq<Byte>>, written: seq<Byte>)
    requires Progress(keys, [], done, written)
    ensures written == Revealed(keys)
  {
    assert [] + done == done;
  }

  /** One turn of the loop; all nodes of the list lie in repr. */
  method RevealTurn(head: Node<seq<Byte>>, ghost nodes: seq<Node<seq<Byte>>>, ghost keys: seq<seq<Byte>>,
                    ghost kept: seq<seq<Byte>>, ghost done: seq<seq<Byte>>, buffer: array<Byte>, at: nat,
                    ghost repr: set<Node<seq<Byte>>>)
    returns (head': Node?<seq<Byte>>, ghost nodes': seq<Node<seq<Byte>>>, ghost kept': seq<seq<Byte>>,
             ghost done': seq<seq<Byte>>)
    requires IsList(head, nodes) && HoldsKeys(nodes, kept) && forall n | n in nodes :: n in repr
    requires at + MAC_KEY_BYTES <= buffer.Length
    requires Progress(keys, kept, done, buffer[..at]) && forall k | k in keys :: |k| == MAC_KEY_BYTES
    modifies repr, buffer
    ensures IsList(head', nodes') && HoldsKeys(nodes', kept') && forall n | n in nodes' :: n in repr
    ensures |kept'| == |kept| - 1
    ensures Progress(keys, kept', done', buffer[..at + MAC_KEY_BYTES])
  {
    ProgressStep(keys, kept, done, buffer[..at]);
    kept', done' := kept[..|kept| - 1], [kept[|kept| - 1]] + done;
    head', nodes' := RevealLast(head, nodes, kept, buffer, at);
  }

  lemma NothingDone(keys: seq<seq<Byte>>)
    ensures Progress(keys, keys, [], [])
  {
    assert keys + [] == keys;
  }

  /** The loop that takes the last element again and again. */
  method RevealAll(head: Node?<seq<Byte>>, ghost nodes: seq<Node<seq<Byte>>>, ghost keys: seq<seq<Byte>>,
                   buffer: array<Byte>, count: nat, ghost repr: set<Node<seq<Byte>>>)
    returns (ghost done: seq<seq<Byte>>)
    requires forall n | n in nodes :: n in repr
    requires IsList(head, nodes) && HoldsKeys(nodes, keys) && count == |keys|
    requires buffer.Length == count * MAC_KEY_BYTES && forall k | k in keys :: |k| == MAC_KEY_BYTES
    requires Progress(keys, keys, [], buffer[..0])
    modifies repr, buffer
    ensures Progress(keys, [], done, buffer[..buffer.Length])
  {
    var list, i, at := head, 0, 0;
    done := [];
    ghost var left, kept := nodes, keys;
    while i < count
      invariant i <= count && |kept| == count - i && at == i * MAC_KEY_BYTES
      invariant IsList(list, left) && HoldsKeys(left, kept) && forall n | n in left :: n in repr
      invariant Progress(keys, kept, done, buffer[..at])
    {
      list, left, kept, done := RevealTurn(list, left, keys, kept, done, buffer, at, repr);
      i, at := i + 1, at + MAC_KEY_BYTES;
    }
  }

  /** otrng_serialize_old_mac_keys. */
  method SerializeOldMacKeys(head: Node?<seq<Byte>>, ghost nodes: seq<Node<seq<Byte>>>, ghost keys: seq<seq<Byte>>)
    returns (bytes: array?<Byte>)
    requires IsList(head, nodes) && HoldsKeys(nodes, keys)
    requires forall k | k in keys :: |k| == MAC_KEY_BYTES
    modifies nodes
    ensures bytes == null <==> keys == []
    ensures bytes != null ==> fresh(bytes) && bytes[..] == Revealed(keys)
  {
    KeysCounted(nodes, keys);
    var count := Len(head, nodes);
    if count * MAC_KEY_BYTES == 0 {
      return null;
    }
    bytes := new Byte[count * MAC_KEY_BYTES];
    NothingDone(keys);
    assert bytes[..0] == [];
    ghost var done := RevealAll(head, nodes, keys, bytes, count, set n | n in nodes);
    AllDone(keys, done, bytes[..bytes.Length]);
    assert bytes[..] == bytes[..bytes.Length];
  }

  /** The old_mac_keys of a key manager. */
  class MacKeyStore {
    var head: Node?<seq<Byte>>
    ghost var nodes: seq<Node<seq<Byte>>>
    ghost var keys: seq<seq<Byte>>

    ghost predicate Valid()
      reads this, nodes
    {
      IsList(head, nodes) && HoldsKeys(nodes, keys)
    }

    constructor ()
      ensures Valid() && keys == [] && nodes == []
    {
      head := null;
      nodes, keys := [], [];
    }

    method Store(key: seq<Byte>)
      requires Valid() && |key| == MAC_KEY_BYTES
      modifies this, nodes
      ensures Valid() && keys == old(keys) + [key]
      ensures forall n | n in nodes :: n in old(nodes) || fresh(n)
    {
      ghost var ns;
      head, ns := StoreOldMacKey(head, key, nodes, keys);
      nodes, keys := ns, keys + [key];
    }

    /** What the first message of a new sending ratchet carries; nothing stays stored. */
    method RevealAndForget() returns (bytes: array?<Byte>)
      requires Valid()
      modifies this, nodes
      ensures Valid() && keys == []
      ensures forall k | k in old(keys) :: |k| == MAC_KEY_BYTES
      ensures bytes == null <==> old(keys) == []
      ensures bytes != null ==> fresh(bytes) && bytes[..] == Revealed(old(keys))
    {
      assert forall k | k in keys :: |k| == MAC_KEY_BYTES;
      bytes := SerializeOldMacKeys(head, nodes, keys);
      head := null;
      nodes, keys := [], [];
    }
  }

  lemma {:induction false} FlattenAt(keys: seq<seq<Byte>>, i: nat)
    requires i < |keys| && forall k | k in keys :: |k| == MAC_KEY_BYTES
    ensures Flatten(keys)[i * MAC_KEY_BYTES..(i + 1) * MAC_KEY_BYTES] == keys[i]
  {
    if i < |keys| - 1 {
      FlattenAt(keys[..|keys| - 1], i);
    }
  }

  lemma {:induction false} ReversedAt<T>(s: seq<T>, i: nat)
    requires i < |s|
    ensures |KM.Reversed(s)| == |s| && KM.Reversed(s)[i] == s[|s| - 1 - i]
  {
    ReversedShape(s);
    ReversedShape(s[1..]);
    if i < |s| - 1 {
      ReversedAt(s[1..], i);
    }
  }

  /** The i-th block of 64 revealed bytes is the i-th stored key from the end. */
  lemma RevealedBlock(keys: seq<seq<Byte>>, i: nat)
    requires i < |keys| && forall k | k in keys :: |k| == MAC_KEY_BYTES
    ensures Revealed(keys)[i * MAC_KEY_BYTES..(i + 1) * MAC_KEY_BYTES] == keys[|keys| - 1 - i]
  {
    ReversedShape(keys);
    FlattenAt(KM.Reversed(keys), i);
    ReversedAt(keys, i);
  }

  lemma KeysCounted(nodes: seq<Node<seq<Byte>>>, keys: seq<seq<Byte>>)
    requires HoldsKeys(nodes, keys)
    ensures CountData(Contents(nodes)) == |keys|
  {
    CountAll(Contents(nodes));
  }
}
