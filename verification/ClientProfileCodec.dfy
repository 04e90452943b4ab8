/**
 The client profile as a list of tagged fields (src/client_profile.c). Points are represented
 by their encodings, of which an arbitrary predicate says whether they decode.
 */
module ClientProfileCodec {
  import opened Prelude
  import opened Bytes

  type Curve = seq<Byte> -> bool

  const ED448_POINT_BYTES := 57
  const ED448_SIGNATURE_BYTES := 114
  const ED448_PUBKEY_TYPE := 0x0010
  const ED448_FORGINGKEY_TYPE := 0x0012
  const ED448_PUBKEY_BYTES := 59
  const DSA_PUBKEY_MAX_BYTES := 786
  const DSA_SIG_BYTES := 40

  /** An absent DSA key has no bytes; versions is what strlen sees of the string. */
  datatype Profile = Profile(tag: nat, longTerm: seq<Byte>, forging: seq<Byte>, versions: seq<Byte>, expires: nat,
                             dsaKey: seq<Byte>, transitional: Option<seq<Byte>>, signature: seq<Byte>,
                             shouldPublish: nat)

  const BLANK := Profile(0, [], [], [], 0, [], None, [], 0)

  datatype Field =
    | InstanceTag(tag: nat)
    | PublicKey(point: seq<Byte>)
    | ForgingKey(point: seq<Byte>)
    | Versions(versions: seq<Byte>)
    | Expiration(expires: nat)
    | DsaKey(key: seq<Byte>)
    | Transitional(signature: seq<Byte>)
    | Unknown(kind: nat)

  // ------------------------------------------------------------------ writing

  function Kind(f: Field): nat {
    match f
    case InstanceTag(_) => 1
    case PublicKey(_) => 2
    case ForgingKey(_) => 3
    case Versions(_) => 4
    case Expiration(_) => 5
    case DsaKey(_) => 6
    case Transitional(_) => 7
    case Unknown(kind) => kind
  }

  function Contents(f: Field): seq<Byte> {
    match f
    case InstanceTag(tag) => Uint(tag, 4)
    case PublicKey(point) => Uint(ED448_PUBKEY_TYPE, 2) + point
    case ForgingKey(point) => Uint(ED448_FORGINGKEY_TYPE, 2) + point
    case Versions(versions) => Data(versions)
    case Expiration(expires) => Uint(expires, 8)
    case DsaKey(key) => key
    case Transitional(signature) => signature
    case Unknown(_) => []
  }

  function WriteField(f: Field): seq<Byte> { Uint(Kind(f), 2) + Contents(f) }

  function WriteFields(fs: seq<Field>): seq<Byte> {
    if fs == [] then [] else WriteField(fs[0]) + WriteFields(fs[1..])
  }

  /** client_profile_body_serialize_pre_transitional_signature. */
  function FieldsBefore(p: Profile): seq<Field> {
    [InstanceTag(p.tag), PublicKey(p.longTerm), ForgingKey(p.forging), Versions(p.versions), Expiration(p.expires)]
    + if p.dsaKey != [] then [DsaKey(p.dsaKey)] else []
  }

  function Fields(p: Profile): seq<Field> {
    FieldsBefore(p) + if p.transitional.Some? then [Transitional(p.transitional.value)] else []
  }

  /** client_profile_body_serialize: the number of fields, then the fields. */
  function Body(p: Profile): seq<Byte> { Uint(|Fields(p)|, 4) + WriteFields(Fields(p)) }

  /** OTRNG_CLIENT_PROFILE_FIELDS_MAX_BYTES; it leaves out the length of the versions. */
  function FieldsMaxBytes(versions: nat): nat {
    2 + 4 + 2 + ED448_PUBKEY_BYTES + 2 + ED448_PUBKEY_BYTES + 2 + versions + 2 + 8
    + 2 + DSA_PUBKEY_MAX_BYTES + 2 + DSA_SIG_BYTES
  }

  function MaxBytes(versions: nat): nat { 4 + FieldsMaxBytes(versions) + ED448_SIGNATURE_BYTES }

  /** What a serializer comes to: the bytes, an error, or a write past the end of its buffer,
      after which the source's behaviour is not defined. */
  datatype Outcome = Written(bytes: seq<Byte>) | Refused | Overrun

  /** Bytes written to a buffer without a check. */
  function Unchecked(size: nat, bytes: seq<Byte>): Outcome {
    if |bytes| > size then Overrun else Written(bytes)
  }

  /** client_profile_body_serialize_into, which signing and verifying use: the buffer has no room
      for the number of fields either. */
  function SerializeBody(p: Profile): Outcome { Unchecked(FieldsMaxBytes(|p.versions|), Body(p)) }

  /** otrng_client_profile_serialize: the body is not checked, then an error when the signature
      does not fit. */
  function Serialize(p: Profile): Outcome {
    var size := MaxBytes(|p.versions|);
    if |Body(p)| > size then Overrun
    else if size - |Body(p)| < ED448_SIGNATURE_BYTES then Refused
    else Written(Body(p) + p.signature)
  }

  /** otrng_client_profile_serialize_with_metadata. */
  function SerializeWithMetadata(p: Profile): Outcome {
    Unchecked(MaxBytes(|p.versions|) + 1, Body(p) + p.signature + Uint(p.shouldPublish, 1))
  }

  /** Field after field, the cursor moving on. */
  method WriteFieldsInto(dst: array<Byte>, at: nat, fs: seq<Field>) returns (w: nat)
    requires at + |WriteFields(fs)| <= dst.Length
    modifies dst
    ensures w == at + |WriteFields(fs)| && dst[..w] == old(dst[..at]) + WriteFields(fs)
  {
    w := at;
    ghost var before := dst[..at];
    for i := 0 to |fs|
      invariant w + |WriteFields(fs[i..])| == at + |WriteFields(fs)|
      invariant dst[..w] + WriteFields(fs[i..]) == before + WriteFields(fs)
    {
      Regroup(dst[..w], WriteField(fs[i]), WriteFields(fs[i + 1..]));
      WriteNext(fs, i);
      w := Append(dst, w, WriteField(fs[i]));
    }
    assert WriteFields(fs[|fs|..]) == [];
  }

  lemma WriteNext(fs: seq<Field>, i: nat)
    requires i < |fs|
    ensures WriteFields(fs[i..]) == WriteField(fs[i]) + WriteFields(fs[i + 1..])
  {
    assert fs[i..][0] == fs[i] && fs[i..][1..] == fs[i + 1..];
  }

  /** client_profile_body_serialize: the fields, then their number in front. */
  method WriteBody(dst: array<Byte>, p: Profile) returns (w: nat)
    requires |Body(p)| <= dst.Length
    modifies dst
    ensures w == |Body(p)| && dst[..w] == Body(p)
  {
    w := WriteFieldsInto(dst, 4, Fields(p));
    ghost var zeros := dst[..4];
    assert dst[4..w] == dst[..w][4..] == WriteFields(Fields(p));
    var n := SerializeUint(dst, 0, |Fields(p)|, 4);
    assert dst[..w] == dst[0..4] + dst[4..w];
  }

  method SerializeProfile(p: Profile) returns (r: Outcome)
    requires |p.signature| == ED448_SIGNATURE_BYTES
    ensures r == Serialize(p)
  {
    var buffer := new Byte[MaxBytes(|p.versions|)](_ => 0);
    if |Body(p)| > buffer.Length {
      return Overrun;
    }
    var written := WriteBody(buffer, p);
    if buffer.Length - written < ED448_SIGNATURE_BYTES {
      return Refused;
    }
    written := Append(buffer, written, p.signature);
    r := Written(buffer[..written]);
  }

  // ------------------------------------------------------------------ reading

  function ReadKey(buffer: seq<Byte>, kind: nat, curve: Curve): Option<Read<seq<Byte>>> {
    match ReadUint(buffer, 2)
    case None => None
    case Some(k) =>
      if |buffer| < ED448_PUBKEY_BYTES || k.value != kind || !curve(buffer[2..ED448_PUBKEY_BYTES]) then None
      else Some(Read(buffer[2..ED448_PUBKEY_BYTES], ED448_PUBKEY_BYTES))
  }

  /** Length of n length-prefixed numbers in a row. */
  function ReadMpis(buffer: seq<Byte>, n: nat): (used: Option<nat>)
    ensures used.Some? ==> used.value <= |buffer|
  {
    if n == 0 then Some(0)
    else
      match ReadData(buffer)
      case None => None
      case Some(d) =>
        match ReadMpis(buffer[d.used..], n - 1)
        case None => None
        case Some(rest) => Some(d.used + rest)
  }

  /** deserialize_dsa_key_field: the type and four numbers, kept as they are. */
  function ReadDsaKey(buffer: seq<Byte>): Option<Read<seq<Byte>>> {
    match ReadUint(buffer, 2)
    case None => None
    case Some(kind) =>
      if kind.value != 0 then None
      else
        match ReadMpis(buffer[2..], 4)
        case None => None
        case Some(n) => Some(Read(buffer[..2 + n], 2 + n))
  }

  /** The contents of a field of the given type; an unknown type has none. */
  function ReadContents(kind: nat, buffer: seq<Byte>, curve: Curve): Option<Read<Field>> {
    match kind
    case 1 => (match ReadUint(buffer, 4) case None => None case Some(r) => Some(Read(InstanceTag(r.value), r.used)))
    case 2 => (match ReadKey(buffer, ED448_PUBKEY_TYPE, curve)
               case None => None case Some(r) => Some(Read(PublicKey(r.value), r.used)))
    case 3 => (match ReadKey(buffer, ED448_FORGINGKEY_TYPE, curve)
               case None => None case Some(r) => Some(Read(ForgingKey(r.value), r.used)))
    case 4 => (match ReadData(buffer) case None => None case Some(r) => Some(Read(Versions(UpToNul(r.value)), r.used)))
    case 5 => (match ReadUint(buffer, 8) case None => None case Some(r) => Some(Read(Expiration(r.value), r.used)))
    case 6 => (match ReadDsaKey(buffer) case None => None case Some(r) => Some(Read(DsaKey(r.value), r.used)))
    case 7 => (match ReadBytes(buffer, DSA_SIG_BYTES)
               case None => None case Some(r) => Some(Read(Transitional(r.value), r.used)))
    case _ => Some(Read(Unknown(kind), 0))
  }

  /** deserialize_field. */
  function ReadField(buffer: seq<Byte>, curve: Curve): (r: Option<Read<Field>>)
    ensures r.Some? ==> r.value.used <= |buffer|
  {
    match ReadUint(buffer, 2)
    case None => None
    case Some(kind) =>
      match ReadContents(kind.value, buffer[2..], curve)
      case None => None
      case Some(r) => Some(Read(r.value, 2 + r.used))
  }

  function Apply(p: Profile, f: Field): Profile {
    match f
    case InstanceTag(tag) => p.(tag := tag)
    case PublicKey(point) => p.(longTerm := point)
    case ForgingKey(point) => p.(forging := point)
    case Versions(versions) => p.(versions := versions)
    case Expiration(expires) => p.(expires := expires)
    case DsaKey(key) => p.(dsaKey := key)
    case Transitional(signature) => p.(transitional := Some(signature))
    case Unknown(_) => p
  }

  function ApplyAll(p: Profile, fs: seq<Field>): Profile
    decreases |fs|
  {
    if fs == [] then p else ApplyAll(Apply(p, fs[0]), fs[1..])
  }

  /** A way to read one field. */
  type Reader = seq<Byte> -> Option<Read<Field>>

  ghost predicate Bounded(reader: Reader) {
    forall b: seq<Byte> :: reader(b).Some? ==> reader(b).value.used <= |b|
  }

  function FieldReader(curve: Curve): (reader: Reader)
    ensures Bounded(reader)
  {
    b => ReadField(b, curve)
  }

  /** Fields read first, in the first w bytes, before the ones of another read. */
  function After(fs: seq<Field>, w: nat, r: Option<Read<seq<Field>>>): Option<Read<seq<Field>>> {
    match r
    case None => None
    case Some(v) => Some(Read(fs + v.value, w + v.used))
  }

  /** n fields in a row. */
  function ReadFields(n: nat, buffer: seq<Byte>, reader: Reader): (r: Option<Read<seq<Field>>>)
    requires Bounded(reader)
    ensures r.Some? ==> r.value.used <= |buffer|
    decreases n
  {
    if n == 0 then Some(Read([], 0))
    else
      match reader(buffer)
      case None => None
      case Some(f) => After([f.value], f.used, ReadFields(n - 1, buffer[f.used..], reader))
  }

  /** The signature stands at w, after the fields of p. */
  function Signed(buffer: seq<Byte>, p: Profile, w: nat): (result: Option<Read<Profile>>)
    requires w <= |buffer|
    ensures result.Some? ==> result.value.used <= |buffer|
  {
    if |buffer| - w < ED448_SIGNATURE_BYTES then None
    else Some(Read(p.(signature := buffer[w..w + ED448_SIGNATURE_BYTES]), w + ED448_SIGNATURE_BYTES))
  }

  function DeserializeWith(buffer: seq<Byte>, reader: Reader): (result: Option<Read<Profile>>)
    requires Bounded(reader)
    ensures result.Some? ==> result.value.used <= |buffer|
  {
    match ReadUint(buffer, 4)
    case None => None
    case Some(num) =>
      match ReadFields(num.value, buffer[4..], reader)
      case None => None
      case Some(r) => Signed(buffer, ApplyAll(BLANK, r.value), 4 + r.used)
  }

  /** otrng_client_profile_deserialize. */
  function Deserialize(buffer: seq<Byte>, curve: Curve): (result: Option<Read<Profile>>)
    ensures result.Some? ==> result.value.used <= |buffer|
  {
    DeserializeWith(buffer, FieldReader(curve))
  }

  /** Fields stored in p one by one as they are read, from w on. */
  function ReadInto(p: Profile, n: nat, buffer: seq<Byte>, w: nat, reader: Reader): Option<Read<Profile>>
    requires Bounded(reader) && w <= |buffer|
    decreases n
  {
    if n == 0 then Some(Read(p, w))
    else
      match reader(buffer[w..])
      case None => None
      case Some(f) => ReadInto(Apply(p, f.value), n - 1, buffer, w + f.used, reader)
  }

  /** Fields stored in p that were read at w. */
  function Stored(p: Profile, w: nat, r: Option<Read<seq<Field>>>): Option<Read<Profile>> {
    match r
    case None => None
    case Some(v) => Some(Read(ApplyAll(p, v.value), w + v.used))
  }

  lemma StoredOneMore(p: Profile, w: nat, f: Field, used: nat, r: Option<Read<seq<Field>>>)
    ensures Stored(p, w, After([f], used, r)) == Stored(Apply(p, f), w + used, r)
  {
    if r.Some? {
      assert ([f] + r.value.value)[1..] == r.value.value;
    }
  }

  /** Storing the fields as they are read is reading them all and storing them then. */
  lemma {:induction false} ReadIntoIs(p: Profile, n: nat, buffer: seq<Byte>, w: nat, reader: Reader)
    requires Bounded(reader) && w <= |buffer|
    ensures ReadInto(p, n, buffer, w, reader) == Stored(p, w, ReadFields(n, buffer[w..], reader))
    decreases n
  {
    if n > 0 && reader(buffer[w..]).Some? {
      var f := reader(buffer[w..]).value;
      ReadIntoIs(Apply(p, f.value), n - 1, buffer, w + f.used, reader);
      assert buffer[w..][f.used..] == buffer[w + f.used..];
      StoredOneMore(p, w, f.value, f.used, ReadFields(n - 1, buffer[w + f.used..], reader));
    }
  }

  /** The loop over the announced number of fields: each is stored as it is read. */
  method ReadFieldLoop(num: nat, buffer: seq<Byte>, reader: Reader) returns (target: Option<Read<Profile>>)
    requires Bounded(reader)
    ensures target == Stored(BLANK, 0, ReadFields(num, buffer, reader))
  {
    var p, w, numFields := BLANK, 0, num;
    ReadIntoIs(BLANK, num, buffer, 0, reader);
    assert buffer[0..] == buffer;
    while numFields > 0
      invariant 0 <= w <= |buffer| && 0 <= numFields
      invariant ReadInto(BLANK, num, buffer, 0, reader) == ReadInto(p, numFields, buffer, w, reader)
    {
      var f := reader(buffer[w..]);
      if f.None? {
        return None;
      }
      p := Apply(p, f.value.value);
      w := w + f.value.used;
      numFields := numFields - 1;
    }
    target := Some(Read(p, w));
  }

  /** The number of fields, the fields, the signature. */
  method DeserializeSigned(buffer: seq<Byte>, reader: Reader) returns (target: Option<Read<Profile>>)
    requires Bounded(reader)
    ensures target == DeserializeWith(buffer, reader)
  {
    var num := ReadUint(buffer, 4);
    if num.None? {
      return None;
    }
    var r := ReadFieldLoop(num.value.value, buffer[4..], reader);
    if r.None? {
      return None;
    }
    target := TakeSignature(buffer, r.value.value, 4 + r.value.used);
  }

  method TakeSignature(buffer: seq<Byte>, p: Profile, w: nat) returns (target: Option<Read<Profile>>)
    requires w <= |buffer|
    ensures target == Signed(buffer, p, w)
  {
    if |buffer| - w < ED448_SIGNATURE_BYTES {
      return None;
    }
    target := Some(Read(p.(signature := buffer[w..w + ED448_SIGNATURE_BYTES]), w + ED448_SIGNATURE_BYTES));
  }

  /** otrng_client_profile_deserialize, in place. */
  method DeserializeProfile(buffer: seq<Byte>, curve: Curve) returns (target: Option<Read<Profile>>)
    ensures target == Deserialize(buffer, curve)
  {
    target := DeserializeSigned(buffer, FieldReader(curve));
  }

  /** otrng_client_profile_deserialize_with_metadata. */
  function DeserializeWithMetadata(buffer: seq<Byte>, curve: Curve): Option<Read<Profile>> {
    match Deserialize(buffer, curve)
    case None => None
    case Some(r) =>
      match ReadUint(buffer[r.used..], 1)
      case None => None
      case Some(b) => Some(Read(r.value.(shouldPublish := b.value), r.used + 1))
  }

  // -------------------------------------------------------------- round trips

  /** A field as the library writes it. */
  predicate Writable(f: Field, curve: Curve) {
    match f
    case InstanceTag(tag) => tag < 0x1_0000_0000
    case PublicKey(point) => |point| == ED448_POINT_BYTES && curve(point)
    case ForgingKey(point) => |point| == ED448_POINT_BYTES && curve(point)
    case Versions(versions) => |versions| < 0x1_0000_0000 && 0 !in versions
    case Expiration(expires) => expires < 0x1_0000_0000_0000_0000
    case DsaKey(key) => ReadDsaKey(key) == Some(Read(key, |key|))
    case Transitional(signature) => |signature| == DSA_SIG_BYTES
    case Unknown(_) => false
  }

  lemma {:induction false} WholeString(s: seq<Byte>)
    requires NulFree(s)
    ensures UpToNul(s) == s
  {
    if s != [] {
      assert s[0] in s;
      WholeString(s[1..]);
    }
  }

  lemma KeyRead(kind: nat, point: seq<Byte>, rest: seq<Byte>, curve: Curve)
    requires kind < 0x1_0000 && |point| == ED448_POINT_BYTES && curve(point)
    ensures ReadKey(Uint(kind, 2) + point + rest, kind, curve) == Some(Read(point, ED448_PUBKEY_BYTES))
  {
    Bounds();
    var s := Uint(kind, 2) + point + rest;
    assert s == Uint(kind, 2) + (point + rest);
    ReadWrittenUint(kind, 2, point + rest);
    assert s[2..ED448_PUBKEY_BYTES] == point;
  }

  lemma DataFollowed(buffer: seq<Byte>, rest: seq<Byte>)
    requires ReadData(buffer).Some?
    ensures ReadData(buffer + rest) == ReadData(buffer)
  {
    var d := ReadData(buffer).value;
    assert (buffer + rest)[..4] == buffer[..4];
    assert (buffer + rest)[4..d.used] == buffer[4..d.used];
  }

  lemma {:induction false} MpisFollowed(buffer: seq<Byte>, n: nat, rest: seq<Byte>)
    requires ReadMpis(buffer, n).Some?
    ensures ReadMpis(buffer + rest, n) == ReadMpis(buffer, n)
  {
    if n > 0 {
      var d := ReadData(buffer).value;
      DataFollowed(buffer, rest);
      assert (buffer + rest)[d.used..] == buffer[d.used..] + rest;
      MpisFollowed(buffer[d.used..], n - 1, rest);
    }
  }

  /** A DSA key is read alike whatever follows it. */
  lemma DsaKeyRead(key: seq<Byte>, rest: seq<Byte>)
    requires ReadDsaKey(key) == Some(Read(key, |key|))
    ensures ReadDsaKey(key + rest) == Some(Read(key, |key|))
  {
    assert (key + rest)[..2] == key[..2];
    assert (key + rest)[2..] == key[2..] + rest;
    MpisFollowed(key[2..], 4, rest);
    assert (key + rest)[..|key|] == key;
  }

  lemma ContentsRead(f: Field, rest: seq<Byte>, curve: Curve)
    requires Writable(f, curve)
    ensures ReadContents(Kind(f), Contents(f) + rest, curve) == Some(Read(f, |Contents(f)|))
  {
    Bounds();
    match f
    case InstanceTag(tag) => ReadWrittenUint(tag, 4, rest);
    case PublicKey(point) => KeyRead(ED448_PUBKEY_TYPE, point, rest, curve);
    case ForgingKey(point) => KeyRead(ED448_FORGINGKEY_TYPE, point, rest, curve);
    case Versions(versions) =>
      ReadWrittenData(versions, rest);
      WholeString(versions);
    case Expiration(expires) => ReadWrittenUint(expires, 8, rest);
    case DsaKey(key) => DsaKeyRead(key, rest);
    case Transitional(signature) => ReadWrittenBytes(signature, rest);
  }

  lemma FieldFrom(kind: nat, after: seq<Byte>, f: Field, used: nat, curve: Curve)
    requires kind < 0x1_0000 && ReadContents(kind, after, curve) == Some(Read(f, used))
    ensures ReadField(Uint(kind, 2) + after, curve) == Some(Read(f, 2 + used))
  {
    Bounds();
    ReadWrittenUint(kind, 2, after);
    assert (Uint(kind, 2) + after)[2..] == after;
  }

  lemma FieldRead(f: Field, rest: seq<Byte>, curve: Curve)
    requires Writable(f, curve)
    ensures ReadField(WriteField(f) + rest, curve) == Some(Read(f, |WriteField(f)|))
  {
    ContentsRead(f, rest, curve);
    FieldFrom(Kind(f), Contents(f) + rest, f, |Contents(f)|, curve);
    assert WriteField(f) + rest == Uint(Kind(f), 2) + (Contents(f) + rest);
  }

  predicate AllWritable(fs: seq<Field>, curve: Curve) {
    forall f | f in fs :: Writable(f, curve)
  }

  /** The reader undoes the writing of a field, whatever follows. */
  ghost predicate Undoes(reader: Reader, f: Field) {
    forall rest: seq<Byte> :: reader(WriteField(f) + rest) == Some(Read(f, |WriteField(f)|))
  }

  lemma ReaderUndoes(fs: seq<Field>, curve: Curve)
    requires AllWritable(fs, curve)
    ensures forall f | f in fs :: Undoes(FieldReader(curve), f)
  {
    forall f, rest: seq<Byte> | f in fs
      ensures FieldReader(curve)(WriteField(f) + rest) == Some(Read(f, |WriteField(f)|))
    {
      FieldRead(f, rest, curve);
    }
  }

  lemma Regroup(a: seq<Byte>, b: seq<Byte>, c: seq<Byte>)
    ensures a + b + c == a + (b + c)
  {
  }

  /** One field, then as many as follow. */
  lemma FieldsReadCons(f: Field, fs: seq<Field>, a: seq<Byte>, b: seq<Byte>, rest: seq<Byte>, reader: Reader)
    requires Bounded(reader) && reader(a + (b + rest)) == Some(Read(f, |a|))
    requires ReadFields(|fs|, b + rest, reader) == Some(Read(fs, |b|))
    ensures ReadFields(|fs| + 1, a + b + rest, reader) == Some(Read([f] + fs, |a + b|))
  {
    Regroup(a, b, rest);
    assert (a + (b + rest))[|a|..] == b + rest;
  }

  /** The fields written are the fields read, whatever follows. */
  lemma {:induction false} FieldsRead(fs: seq<Field>, rest: seq<Byte>, reader: Reader)
    requires Bounded(reader) && forall f | f in fs :: Undoes(reader, f)
    ensures ReadFields(|fs|, WriteFields(fs) + rest, reader) == Some(Read(fs, |WriteFields(fs)|))
  {
    if fs != [] {
      FieldsRead(fs[1..], rest, reader);
      assert Undoes(reader, fs[0]);
      FieldsReadCons(fs[0], fs[1..], WriteField(fs[0]), WriteFields(fs[1..]), rest, reader);
      assert [fs[0]] + fs[1..] == fs && WriteFields(fs) == WriteField(fs[0]) + WriteFields(fs[1..]);
    }
  }

  /** The five fields every profile has, and the optional ones. */
  function Mandatory(p: Profile): seq<Field> {
    [InstanceTag(p.tag), PublicKey(p.longTerm), ForgingKey(p.forging), Versions(p.versions), Expiration(p.expires)]
  }

  function Optional(p: Profile): seq<Field> {
    (if p.dsaKey != [] then [DsaKey(p.dsaKey)] else [])
    + if p.transitional.Some? then [Transitional(p.transitional.value)] else []
  }

  lemma FieldsSplit(p: Profile)
    ensures Fields(p) == Mandatory(p) + Optional(p)
  {
  }

  lemma ApplyTwo(p: Profile, f: Field, g: Field, fs: seq<Field>)
    ensures ApplyAll(p, [f, g] + fs) == ApplyAll(Apply(Apply(p, f), g), fs)
  {
    assert ([f, g] + fs)[1..] == [g] + fs && ([g] + fs)[1..] == fs;
  }

  lemma ApplyMandatory(p: Profile)
    ensures ApplyAll(BLANK, Mandatory(p))
            == BLANK.(tag := p.tag, longTerm := p.longTerm, forging := p.forging, versions := p.versions,
                      expires := p.expires)
  {
    var last := [Expiration(p.expires)];
    var middle := [ForgingKey(p.forging), Versions(p.versions)] + last;
    assert Mandatory(p) == [InstanceTag(p.tag), PublicKey(p.longTerm)] + middle;
    ApplyTwo(BLANK, InstanceTag(p.tag), PublicKey(p.longTerm), middle);
    var q := BLANK.(tag := p.tag, longTerm := p.longTerm);
    ApplyTwo(q, ForgingKey(p.forging), Versions(p.versions), last);
    assert last[1..] == [];
  }

  lemma ApplyOptional(q: Profile, p: Profile)
    requires q.dsaKey == [] && q.transitional == None
    ensures ApplyAll(q, Optional(p)) == q.(dsaKey := p.dsaKey, transitional := p.transitional)
  {
    var dsa := if p.dsaKey != [] then [DsaKey(p.dsaKey)] else [];
    var trans := if p.transitional.Some? then [Transitional(p.transitional.value)] else [];
    ApplyConcat(q, dsa, trans);
    assert dsa != [] ==> dsa[1..] == [];
    assert trans != [] ==> trans[1..] == [];
  }

  /** The fields of a profile determine it, up to what is not in them. */
  lemma FieldsDetermine(p: Profile)
    ensures ApplyAll(BLANK, Fields(p)) == p.(signature := [], shouldPublish := 0)
  {
    FieldsSplit(p);
    ApplyConcat(BLANK, Mandatory(p), Optional(p));
    ApplyMandatory(p);
    ApplyOptional(ApplyAll(BLANK, Mandatory(p)), p);
  }

  lemma {:induction false} ApplyConcat(p: Profile, a: seq<Field>, b: seq<Field>)
    ensures ApplyAll(p, a + b) == ApplyAll(ApplyAll(p, a), b)
    decreases |a|
  {
    if a == [] {
      assert a + b == b;
    } else {
      assert (a + b)[1..] == a[1..] + b;
      ApplyConcat(Apply(p, a[0]), a[1..], b);
    }
  }

  predicate Sendable(p: Profile, curve: Curve) {
    AllWritable(Fields(p), curve) && |p.signature| == ED448_SIGNATURE_BYTES
  }

  lemma DeserializeSteps(buffer: seq<Byte>, reader: Reader, num: nat, r: Read<seq<Field>>, w: nat)
    requires Bounded(reader) && ReadUint(buffer, 4) == Some(Read(num, 4))
    requires ReadFields(num, buffer[4..], reader) == Some(r)
    requires w == 4 + r.used
    ensures w <= |buffer| && DeserializeWith(buffer, reader) == Signed(buffer, ApplyAll(BLANK, r.value), w)
  {
  }

  lemma WrittenRead(fs: seq<Field>, signature: seq<Byte>, rest: seq<Byte>, reader: Reader)
    requires Bounded(reader) && forall f | f in fs :: Undoes(reader, f)
    requires |fs| < 0x1_0000_0000 && |signature| == ED448_SIGNATURE_BYTES
    ensures DeserializeWith(Uint(|fs|, 4) + (WriteFields(fs) + (signature + rest)), reader)
            == Some(Read(ApplyAll(BLANK, fs).(signature := signature),
                         4 + |WriteFields(fs)| + ED448_SIGNATURE_BYTES))
  {
    FieldsRead(fs, signature + rest, reader);
    NumberedFields(|fs|, WriteFields(fs), signature, rest, reader, fs);
  }

  lemma MiddleOf(a: seq<Byte>, b: seq<Byte>, c: seq<Byte>)
    ensures (a + (b + c))[|a|..|a| + |b|] == b && (a + (b + c))[|a|..] == b + c
  {
  }

  /** Where number, fields and signature stand. */
  lemma NumberedBytes(num: nat, written: seq<Byte>, signature: seq<Byte>, rest: seq<Byte>) returns (s: seq<Byte>)
    requires num < 0x1_0000_0000
    ensures s == Uint(num, 4) + (written + (signature + rest))
    ensures ReadUint(s, 4) == Some(Read(num, 4)) && s[4..] == written + (signature + rest)
    ensures s[4 + |written|..4 + |written| + |signature|] == signature
  {
    var after := written + (signature + rest);
    Bounds();
    ReadWrittenUint(num, 4, after);
    s := Uint(num, 4) + after;
    Regroup(Uint(num, 4), written, signature + rest);
    MiddleOf(Uint(num, 4) + written, signature, rest);
    MiddleOf(Uint(num, 4), after, []);
    assert after + [] == after;
  }

  lemma NumberedFields(num: nat, written: seq<Byte>, signature: seq<Byte>, rest: seq<Byte>, reader: Reader,
                       fs: seq<Field>)
    requires Bounded(reader) && num < 0x1_0000_0000 && |signature| == ED448_SIGNATURE_BYTES
    requires ReadFields(num, written + (signature + rest), reader) == Some(Read(fs, |written|))
    ensures DeserializeWith(Uint(num, 4) + (written + (signature + rest)), reader)
            == Some(Read(ApplyAll(BLANK, fs).(signature := signature), 4 + |written| + ED448_SIGNATURE_BYTES))
  {
    var s := NumberedBytes(num, written, signature, rest);
    DeserializeSteps(s, reader, num, Read(fs, |written|), 4 + |written|);
  }

  lemma BodyRoundTrip(p: Profile, rest: seq<Byte>, curve: Curve)
    requires Sendable(p, curve)
    ensures var bytes := Body(p) + p.signature;
            Deserialize(bytes + rest, curve) == Some(Read(p.(shouldPublish := 0), |bytes|))
  {
    FieldsDetermine(p);
    FieldsRoundTrip(Fields(p), p.signature, rest, curve);
  }

  /** For every combination of the optional fields: what serialization returns parses back to the
      same profile with the exact byte count, whatever follows; and serializing the body again
      to verify the signature does what it did when the profile was signed. */
  lemma ProfileRoundTrip(p: Profile, rest: seq<Byte>, curve: Curve)
    requires Sendable(p, curve) && Serialize(p).Written?
    ensures var bytes := Serialize(p).bytes;
            Deserialize(bytes + rest, curve) == Some(Read(p.(shouldPublish := 0), |bytes|))
    ensures SerializeBody(p.(shouldPublish := 0)) == SerializeBody(p)
  {
    BodyRoundTrip(p, rest, curve);
    assert Fields(p.(shouldPublish := 0)) == Fields(p);
  }

  lemma FieldsRoundTrip(fs: seq<Field>, signature: seq<Byte>, rest: seq<Byte>, curve: Curve)
    requires AllWritable(fs, curve) && |fs| < 0x1_0000_0000 && |signature| == ED448_SIGNATURE_BYTES
    ensures var bytes := Uint(|fs|, 4) + WriteFields(fs) + signature;
            Deserialize(bytes + rest, curve) == Some(Read(ApplyAll(BLANK, fs).(signature := signature), |bytes|))
  {
    Regroup3(Uint(|fs|, 4), WriteFields(fs), signature, rest);
    ReaderUndoes(fs, curve);
    WrittenRead(fs, signature, rest, FieldReader(curve));
  }

  lemma Regroup3(a: seq<Byte>, b: seq<Byte>, c: seq<Byte>, d: seq<Byte>)
    ensures a + b + c + d == a + (b + (c + d))
  {
  }

  lemma MetadataRoundTrip(p: Profile, rest: seq<Byte>, curve: Curve)
    requires Sendable(p, curve) && p.shouldPublish < 0x100 && SerializeWithMetadata(p).Written?
    ensures var bytes := SerializeWithMetadata(p).bytes;
            DeserializeWithMetadata(bytes + rest, curve) == Some(Read(p, |bytes|))
  {
    var bytes := Body(p) + p.signature;
    var last := Uint(p.shouldPublish, 1) + rest;
    assert Bound(1) == 0x100;
    assert SerializeWithMetadata(p).bytes + rest == bytes + last;
    BodyRoundTrip(p, last, curve);
    assert (bytes + last)[|bytes|..] == last;
    ReadWrittenUint(p.shouldPublish, 1, rest);
  }

  lemma WriteTwo(f: Field, g: Field, fs: seq<Field>)
    ensures WriteFields([f, g] + fs) == WriteField(f) + WriteField(g) + WriteFields(fs)
  {
    assert ([f, g] + fs)[1..] == [g] + fs && ([g] + fs)[1..] == fs;
  }

  lemma MandatoryLength(p: Profile)
    requires |p.longTerm| == ED448_POINT_BYTES && |p.forging| == ED448_POINT_BYTES
    ensures |WriteFields(Mandatory(p))| == 6 + 61 + 61 + (6 + |p.versions|) + 10
  {
    var last := [Expiration(p.expires)];
    var middle := [ForgingKey(p.forging), Versions(p.versions)] + last;
    assert Mandatory(p) == [InstanceTag(p.tag), PublicKey(p.longTerm)] + middle;
    WriteTwo(InstanceTag(p.tag), PublicKey(p.longTerm), middle);
    WriteTwo(ForgingKey(p.forging), Versions(p.versions), last);
    assert WriteFields(last) == WriteField(last[0]) + WriteFields([]);
  }

  lemma OptionalLength(p: Profile)
    requires p.transitional.Some? ==> |p.transitional.value| == DSA_SIG_BYTES
    ensures |WriteFields(Optional(p))|
            == (if p.dsaKey != [] then 2 + |p.dsaKey| else 0) + if p.transitional.Some? then 42 else 0
  {
    var dsa := if p.dsaKey != [] then [DsaKey(p.dsaKey)] else [];
    var trans := if p.transitional.Some? then [Transitional(p.transitional.value)] else [];
    WriteConcat(dsa, trans);
    assert dsa != [] ==> dsa[1..] == [];
    assert trans != [] ==> trans[1..] == [];
  }

  lemma KeyWritten(buffer: seq<Byte>, kind: nat, curve: Curve)
    requires ReadKey(buffer, kind, curve).Some?
    ensures Uint(kind, 2) + ReadKey(buffer, kind, curve).value.value == buffer[..ReadKey(buffer, kind, curve).value.used]
  {
    UintOfValue(buffer[..2]);
    assert buffer[..ED448_PUBKEY_BYTES] == buffer[..2] + buffer[2..ED448_PUBKEY_BYTES];
  }

  lemma DsaKeyType(buffer: seq<Byte>)
    requires ReadDsaKey(buffer).Some?
    ensures var key := ReadDsaKey(buffer).value.value; |key| >= 2 && Value(key[..2]) == 0
  {
    assert ReadDsaKey(buffer).value.value[..2] == buffer[..2];
  }

  lemma ContentsWritten(kind: nat, buffer: seq<Byte>, curve: Curve)
    requires ReadContents(kind, buffer, curve).Some?
    ensures var r := ReadContents(kind, buffer, curve).value;
            && Kind(r.value) == kind && r.used <= |buffer|
            && ((r.value.Versions? ==> r.used == |r.value.versions| + 4) ==> Contents(r.value) == buffer[..r.used])
            && (r.value.DsaKey? ==> |r.value.key| >= 2 && Value(r.value.key[..2]) == 0)
  {
    match kind
    case 1 => UintOfValue(buffer[..4]);
    case 2 => KeyWritten(buffer, ED448_PUBKEY_TYPE, curve);
    case 3 => KeyWritten(buffer, ED448_FORGINGKEY_TYPE, curve);
    case 4 => DataWritten(buffer);
    case 5 => UintOfValue(buffer[..8]);
    case 6 => DsaKeyType(buffer);
    case _ =>
  }

  /** Any field that was read is written back as the bytes it was read from, and a DSA key is one of type 0. */
  lemma FieldWritten(buffer: seq<Byte>, curve: Curve)
    requires ReadField(buffer, curve).Some?
    ensures var r := ReadField(buffer, curve).value;
            && r.used >= 2
            && ((r.value.Versions? ==> r.used == |r.value.versions| + 6) ==> WriteField(r.value) == buffer[..r.used])
            && (r.value.DsaKey? ==> |r.value.key| >= 2 && Value(r.value.key[..2]) == 0)
  {
    UintOfValue(buffer[..2]);
    var kind := Value(buffer[..2]);
    ContentsWritten(kind, buffer[2..], curve);
    var r := ReadField(buffer, curve).value;
    assert buffer[..r.used] == buffer[..2] + buffer[2..][..r.used - 2];
  }

  /** A key field holds a point that decodes. */
  predicate Decodes(f: Field, curve: Curve) {
    match f
    case PublicKey(point) => |point| == ED448_POINT_BYTES && curve(point)
    case ForgingKey(point) => |point| == ED448_POINT_BYTES && curve(point)
    case _ => true
  }

  lemma KeyDecodes(buffer: seq<Byte>, kind: nat, curve: Curve)
    ensures var r := ReadKey(buffer, kind, curve);
            r.Some? ==> |r.value.value| == ED448_POINT_BYTES && curve(r.value.value)
  {
  }

  lemma ContentsDecode(kind: nat, buffer: seq<Byte>, curve: Curve)
    ensures ReadContents(kind, buffer, curve).Some? ==> Decodes(ReadContents(kind, buffer, curve).value.value, curve)
  {
    KeyDecodes(buffer, ED448_PUBKEY_TYPE, curve);
    KeyDecodes(buffer, ED448_FORGINGKEY_TYPE, curve);
  }

  lemma FieldDecodes(buffer: seq<Byte>, curve: Curve)
    ensures ReadField(buffer, curve).Some? ==> Decodes(ReadField(buffer, curve).value.value, curve)
  {
    if |buffer| >= 2 {
      ContentsDecode(Value(buffer[..2]), buffer[2..], curve);
    }
  }

  lemma {:induction false} FieldsDecode(n: nat, buffer: seq<Byte>, reader: Reader, curve: Curve)
    requires Bounded(reader) && ReadFields(n, buffer, reader).Some?
    requires forall b: seq<Byte> :: reader(b).Some? ==> Decodes(reader(b).value.value, curve)
    ensures forall f | f in ReadFields(n, buffer, reader).value.value :: Decodes(f, curve)
    decreases n
  {
    if n > 0 {
      FieldsDecode(n - 1, buffer[reader(buffer).value.used..], reader, curve);
    }
  }

  predicate KeysDecode(p: Profile, curve: Curve) {
    && (p.longTerm != BLANK.longTerm ==> |p.longTerm| == ED448_POINT_BYTES && curve(p.longTerm))
    && (p.forging != BLANK.forging ==> |p.forging| == ED448_POINT_BYTES && curve(p.forging))
  }

  lemma {:induction false} AppliedDecode(p: Profile, fs: seq<Field>, curve: Curve)
    requires KeysDecode(p, curve) && forall f | f in fs :: Decodes(f, curve)
    ensures KeysDecode(ApplyAll(p, fs), curve)
    decreases |fs|
  {
    if fs != [] {
      assert fs[0] in fs && forall f | f in fs[1..] :: f in fs;
      AppliedDecode(Apply(p, fs[0]), fs[1..], curve);
    }
  }

  /** Whatever the bytes, a profile that parses has a long-term and a forging key that decode, if any. */
  lemma ParsedKeysDecode(buffer: seq<Byte>, curve: Curve)
    requires Deserialize(buffer, curve).Some?
    ensures var p := Deserialize(buffer, curve).value.value;
            && (p.longTerm == [] || (|p.longTerm| == 57 && curve(p.longTerm)))
            && (p.forging == [] || (|p.forging| == 57 && curve(p.forging)))
  {
    var num := ReadUint(buffer, 4).value;
    forall b: seq<Byte>
      ensures FieldReader(curve)(b).Some? ==> Decodes(FieldReader(curve)(b).value.value, curve)
    {
      FieldDecodes(b, curve);
    }
    FieldsDecode(num.value, buffer[4..], FieldReader(curve), curve);
    AppliedDecode(BLANK, ReadFields(num.value, buffer[4..], FieldReader(curve)).value.value, curve);
  }

  lemma BodyLength(p: Profile, curve: Curve)
    requires AllWritable(Fields(p), curve)
    ensures |Body(p)| == 4 + 6 + 61 + 61 + (6 + |p.versions|) + 10
                         + (if p.dsaKey != [] then 2 + |p.dsaKey| else 0) + if p.transitional.Some? then 42 else 0
  {
    FieldsSplit(p);
    WriteConcat(Mandatory(p), Optional(p));
    assert Writable(PublicKey(p.longTerm), curve) by { assert Fields(p)[1] in Fields(p); }
    assert Writable(ForgingKey(p.forging), curve) by { assert Fields(p)[2] in Fields(p); }
    if p.transitional.Some? {
      assert Fields(p)[|Fields(p)| - 1] in Fields(p);
    }
    MandatoryLength(p);
    OptionalLength(p);
  }

  lemma {:induction false} WriteConcat(a: seq<Field>, b: seq<Field>)
    ensures WriteFields(a + b) == WriteFields(a) + WriteFields(b)
  {
    if a == [] {
      assert a + b == b;
    } else {
      assert (a + b)[1..] == a[1..] + b;
      WriteConcat(a[1..], b);
    }
  }

  // --------------------------------------------------------------- the buffers

  /** The longest DSA key with which body and signature fit the buffer of MaxBytes. */
  function LongestKey(p: Profile): nat { if p.transitional.Some? then 782 else 824 }

  /** The three outcomes of serialization, by the length of the DSA key: beyond 782 bytes with a
      transitional signature, or 824 without, the signature is refused, and with 115 bytes more
      the body alone runs over. Then the remaining length the source computes wraps around and
      its check passes. */
  lemma SerializeOutcome(p: Profile, curve: Curve)
    requires Sendable(p, curve)
    ensures Serialize(p).Written? <==> |p.dsaKey| <= LongestKey(p)
    ensures Serialize(p).Refused? <==> LongestKey(p) < |p.dsaKey| <= LongestKey(p) + ED448_SIGNATURE_BYTES
    ensures Serialize(p).Overrun? <==> LongestKey(p) + ED448_SIGNATURE_BYTES < |p.dsaKey|
  {
    BodyLength(p, curve);
  }

  /** The body that is signed and verified fits its smaller buffer exactly up to a DSA key of 778
      bytes with a transitional signature and 820 without. */
  lemma SignedBodyFitsIff(p: Profile, curve: Curve)
    requires Sendable(p, curve)
    ensures SerializeBody(p) == if |p.dsaKey| <= LongestKey(p) - 4 then Written(Body(p)) else Overrun
  {
    BodyLength(p, curve);
  }

  /** With metadata there is no check of the signature: what is not written runs over. */
  lemma MetadataFitsIff(p: Profile, curve: Curve)
    requires Sendable(p, curve)
    ensures SerializeWithMetadata(p).Written? <==> |p.dsaKey| <= LongestKey(p)
    ensures !SerializeWithMetadata(p).Written? ==> SerializeWithMetadata(p).Overrun?
  {
    BodyLength(p, curve);
  }

  /** Four numbers, the first with all the bytes. */
  function KeyOf(first: seq<Byte>): seq<Byte> { Uint(0, 2) + (Data(first) + (Data([]) + (Data([]) + Data([])))) }

  lemma KeyOfRead(first: seq<Byte>)
    requires |first| < 0x1_0000_0000
    ensures |KeyOf(first)| == |first| + 18 && ReadDsaKey(KeyOf(first)) == Some(Read(KeyOf(first), |KeyOf(first)|))
  {
    var three := Data([]) + (Data([]) + Data([]));
    var key := KeyOf(first);
    Bounds();
    ReadWrittenUint(0, 2, Data(first) + three);
    ReadWrittenData(first, three);
    assert key[2..] == Data(first) + three;
    assert (Data(first) + three)[4 + |first|..] == three;
    EmptyMpis();
    assert ReadMpis(key[2..], 4) == Some(4 + |first| + 12);
    assert key[..|key|] == key;
  }

  /** One empty number in front of others. */
  lemma EmptyMpiThen(rest: seq<Byte>, n: nat, used: nat)
    requires ReadMpis(rest, n) == Some(used)
    ensures ReadMpis(Data([]) + rest, n + 1) == Some(4 + used)
  {
    ReadWrittenData([], rest);
    assert (Data([]) + rest)[4..] == rest;
  }

  lemma EmptyMpis()
    ensures ReadMpis(Data([]) + (Data([]) + Data([])), 3) == Some(12)
  {
    var empty := Data([]);
    EmptyMpiThen([], 0, 0);
    assert empty + [] == empty;
    EmptyMpiThen(empty, 1, 4);
    EmptyMpiThen(empty + empty, 2, 8);
  }

  lemma WithKey(key: seq<Byte>, transitional: bool, point: seq<Byte>, curve: Curve) returns (p: Profile)
    requires Writable(DsaKey(key), curve) && |point| == ED448_POINT_BYTES && curve(point)
    ensures Sendable(p, curve) && p.dsaKey == key && p.transitional.Some? == transitional && p.shouldPublish == 0
  {
    p := Profile(0, point, point, [], 0, key, if transitional then Some(seq(DSA_SIG_BYTES, _ => 0)) else None,
                 seq(ED448_SIGNATURE_BYTES, _ => 0), 0);
    FieldsSplit(p);
    assert forall f | f in Mandatory(p) :: Writable(f, curve);
    assert forall f | f in Optional(p) :: Writable(f, curve);
  }

  /** The parser sets no limit: DSA keys of every length from 18 bytes on occur, with and without
      a transitional signature, so each of these outcomes does. */
  lemma EveryKeyLength(length: nat, transitional: bool, point: seq<Byte>, curve: Curve) returns (p: Profile)
    requires 18 <= length < 0x1_0000_0000 && |point| == ED448_POINT_BYTES && curve(point)
    ensures Sendable(p, curve) && |p.dsaKey| == length && p.transitional.Some? == transitional
    ensures Deserialize(Body(p) + p.signature, curve) == Some(Read(p, |Body(p) + p.signature|))
  {
    var first: seq<Byte> := seq(length - 18, _ => 0);
    KeyOfRead(first);
    p := WithKey(KeyOf(first), transitional, point, curve);
    BodyRoundTrip(p, [], curve);
    assert Body(p) + p.signature + [] == Body(p) + p.signature;
  }
}
