/**
 The byte string the ring signatures of the key exchange are over (src/dake.c): what it binds,
 and the one case in which it binds nothing. Points are represented by their encodings; the
 KDF is an arbitrary function.
 */
module TranscriptTag {
  import opened Prelude
  import opened Bytes
  import C = ClientProfileCodec

  type Kdf = (nat, seq<Byte>) -> seq<Byte>

  const HASH_BYTES := 64
  const ED448_SHARED_PREKEY_BYTES := 2 + C.ED448_POINT_BYTES
  const MAX_T_LENGTH := 3 * HASH_BYTES + 2 * C.ED448_POINT_BYTES + 2 * DH_MPI_MAX_BYTES + ED448_SHARED_PREKEY_BYTES

  datatype Participant = Participant(profile: C.Profile, ecdh: seq<Byte>, dh: Option<nat>)

  /** Auth-R or Auth-I, the two participants, and phi. */
  datatype Exchange = Exchange(authR: bool, initiator: Participant, responder: Participant, phi: seq<Byte>)

  ghost predicate Hashes(kdf: Kdf) { forall u, s :: |kdf(u, s)| == HASH_BYTES }

  predicate OnCurve(p: Participant) { |p.ecdh| == C.ED448_POINT_BYTES }

  predicate Serializable(x: Exchange) {
    C.Serialize(x.initiator.profile).Written? && C.Serialize(x.responder.profile).Written?
  }

  /** The 3072-bit keys are small enough to be written. */
  predicate Writable(x: Exchange) { DhMpi(x.initiator.dh).Some? && DhMpi(x.responder.dh).Some? }

  /** From the first point to the end. */
  function Keys(x: Exchange, phi: seq<Byte>): seq<Byte>
    requires Writable(x)
  {
    x.initiator.ecdh + (x.responder.ecdh + (DhMpi(x.initiator.dh).value + (DhMpi(x.responder.dh).value + phi)))
  }

  /** The first profile that is not written comes to this end. */
  predicate Stops(x: Exchange, end: C.Outcome) {
    var i, r := C.Serialize(x.initiator.profile), C.Serialize(x.responder.profile);
    !end.Written? && (i == end || (i.Written? && r == end))
  }

  /** The transcript of an exchange whose profiles can be serialized. */
  function Full(kdf: Kdf, usage: nat, x: Exchange): seq<Byte>
    requires Writable(x) && Serializable(x)
  {
    kdf(usage, C.Serialize(x.initiator.profile).bytes)
    + (kdf(usage + 1, C.Serialize(x.responder.profile).bytes) + Keys(x, kdf(usage + 2, x.phi)))
  }

  /** build_rsign_tag for the interactive exchange. A profile that is refused ends the work with
      nothing written, and that is a success; the second one is not looked at then. */
  function Transcript(kdf: Kdf, usage: nat, x: Exchange): C.Outcome {
    if !Writable(x) then C.Refused
    else if Stops(x, C.Overrun) then C.Overrun
    else if Stops(x, C.Refused) then C.Written([])
    else C.Written(Full(kdf, usage, x))
  }

  function KindByte(authR: bool): Byte { if authR then 0x00 else 0x01 }
  function Usage(authR: bool): nat { if authR then 0x05 else 0x08 }

  /** build_interactive_rsign_tag: one byte for the kind of message, then the transcript. */
  function Tag(kdf: Kdf, x: Exchange): C.Outcome {
    match Transcript(kdf, Usage(x.authR), x)
    case Written(t) => C.Written([KindByte(x.authR)] + t)
    case other => other
  }

  // ------------------------------------------------------------- the buffer

  /** Pieces appended one by one are appended as one. */
  lemma Appended(s: seq<Byte>, a: seq<Byte>, b: seq<Byte>)
    ensures s + a + b == s + (a + b)
  {
  }

  lemma FourAppended(s: seq<Byte>, a: seq<Byte>, b: seq<Byte>, c: seq<Byte>, d: seq<Byte>)
    ensures s + a + b + c + d == s + (a + (b + (c + d)))
  {
    Appended(s, a, b);
    Appended(s, a + b, c);
    Appended(s, a + b + c, d);
    Appended(a, b, c);
    Appended(a, b + c, d);
    Appended(b, c, d);
  }

  /** The points and the 3072-bit keys, then the hash of phi. */
  method WriteKeys(x: Exchange, phi: seq<Byte>, dst: array<Byte>, at: nat) returns (cursor: nat)
    requires OnCurve(x.initiator) && OnCurve(x.responder) && Writable(x) && |phi| == HASH_BYTES
    requires at + HASH_BYTES + 2 * C.ED448_POINT_BYTES + 2 * DH_MPI_MAX_BYTES <= dst.Length
    modifies dst
    ensures cursor <= dst.Length
    ensures dst[..cursor] == old(dst[..at]) + Keys(x, phi)
  {
    ghost var before := dst[..at];
    cursor := Append(dst, at, x.initiator.ecdh);
    cursor := Append(dst, cursor, x.responder.ecdh);
    cursor := Append(dst, cursor, DhMpi(x.initiator.dh).value);
    ghost var three := dst[..cursor];
    cursor := Append(dst, cursor, DhMpi(x.responder.dh).value);
    cursor := Append(dst, cursor, phi);
    Appended(three, DhMpi(x.responder.dh).value, phi);
    FourAppended(before, x.initiator.ecdh, x.responder.ecdh, DhMpi(x.initiator.dh).value,
                 DhMpi(x.responder.dh).value + phi);
  }

  /** The part of build_rsign_tag that writes; everything fits. */
  method WriteTranscript(initiator: seq<Byte>, responder: seq<Byte>, phi: seq<Byte>, x: Exchange,
                         dst: array<Byte>, at: nat) returns (cursor: nat)
    requires |initiator| == |responder| == |phi| == HASH_BYTES
    requires OnCurve(x.initiator) && OnCurve(x.responder) && Writable(x) && at + MAX_T_LENGTH <= dst.Length
    modifies dst
    ensures cursor <= dst.Length
    ensures dst[..cursor] == old(dst[..at]) + (initiator + (responder + Keys(x, phi)))
  {
    ghost var before := dst[..at];
    cursor := Append(dst, at, initiator);
    cursor := Append(dst, cursor, responder);
    cursor := WriteKeys(x, phi, dst, cursor);
    Appended(before + initiator, responder, Keys(x, phi));
    Appended(before, initiator, responder + Keys(x, phi));
  }

  /** build_interactive_rsign_tag: the longest transcript fits the buffer. */
  method BuildInteractiveRsignTag(kdf: Kdf, x: Exchange) returns (msg: C.Outcome)
    requires Hashes(kdf) && OnCurve(x.initiator) && OnCurve(x.responder)
    ensures msg == Tag(kdf, x)
  {
    if DhMpi(x.initiator.dh).None? || DhMpi(x.responder.dh).None? {
      return C.Refused;
    }
    var buffer := new Byte[1 + MAX_T_LENGTH](_ => 0);
    buffer[0] := KindByte(x.authR);
    var written := 1;
    assert buffer[..1] == [KindByte(x.authR)] == [KindByte(x.authR)] + [];
    var initiator := C.Serialize(x.initiator.profile);
    if initiator.Overrun? {
      return C.Overrun;
    }
    if initiator.Refused? {
      return C.Written(buffer[..written]);
    }
    var responder := C.Serialize(x.responder.profile);
    if responder.Overrun? {
      return C.Overrun;
    }
    if responder.Refused? {
      return C.Written(buffer[..written]);
    }
    var usage := Usage(x.authR);
    written := WriteTranscript(kdf(usage, initiator.bytes), kdf(usage + 1, responder.bytes), kdf(usage + 2, x.phi),
                               x, buffer, 1);
    msg := C.Written(buffer[..written]);
  }

  // ------------------------------------------------------- what the tag binds

  lemma SameFront(a: seq<Byte>, b: seq<Byte>, x: seq<Byte>, y: seq<Byte>)
    requires |a| == |x| && a + b == x + y
    ensures a == x && b == y
  {
    assert a == (a + b)[..|a|] && x == (x + y)[..|a|];
    assert b == (a + b)[|a|..] && y == (x + y)[|a|..];
  }

  /** A missing 3072-bit key and zero are written alike. */
  predicate SameDh(m: Option<nat>, n: Option<nat>) {
    m == n || (m in {None, Some(0)} && n in {None, Some(0)})
  }

  lemma SameDhFront(m: Option<nat>, b: seq<Byte>, n: Option<nat>, y: seq<Byte>)
    requires DhMpi(m).Some? && DhMpi(n).Some? && DhMpi(m).value + b == DhMpi(n).value + y
    ensures SameDh(m, n) && b == y
  {
    ReadWrittenDhMpi(m, b);
    ReadWrittenDhMpi(n, y);
    SameFront(DhMpi(m).value, b, DhMpi(n).value, y);
  }

  predicate SameKeys(x: Participant, y: Participant) { x.ecdh == y.ecdh && SameDh(x.dh, y.dh) }

  lemma SameKeysAndPhi(x: Exchange, y: Exchange, px: seq<Byte>, py: seq<Byte>)
    requires Writable(x) && Writable(y) && Keys(x, px) == Keys(y, py)
    requires OnCurve(x.initiator) && OnCurve(x.responder) && OnCurve(y.initiator) && OnCurve(y.responder)
    ensures SameKeys(x.initiator, y.initiator) && SameKeys(x.responder, y.responder) && px == py
  {
    var rx, ry := DhMpi(x.responder.dh).value + px, DhMpi(y.responder.dh).value + py;
    var ix, iy := DhMpi(x.initiator.dh).value + rx, DhMpi(y.initiator.dh).value + ry;
    SameFront(x.initiator.ecdh, x.responder.ecdh + ix, y.initiator.ecdh, y.responder.ecdh + iy);
    SameFront(x.responder.ecdh, ix, y.responder.ecdh, iy);
    SameDhFront(x.initiator.dh, rx, y.initiator.dh, ry);
    SameDhFront(x.responder.dh, px, y.responder.dh, py);
  }

  /** Profiles with the same serialization are the same, but for the local publishing mark. */
  lemma SameProfile(p: C.Profile, p': C.Profile, curve: C.Curve)
    requires C.Sendable(p, curve) && C.Sendable(p', curve)
    requires C.Serialize(p).Written? && C.Serialize(p) == C.Serialize(p')
    ensures p.(shouldPublish := 0) == p'.(shouldPublish := 0)
  {
    C.ProfileRoundTrip(p, [], curve);
    C.ProfileRoundTrip(p', [], curve);
  }

  predicate Same(x: Participant, y: Participant) {
    x.profile.(shouldPublish := 0) == y.profile.(shouldPublish := 0) && SameKeys(x, y)
  }

  /** Both say the same of the exchange. */
  predicate SameExchange(x: Exchange, y: Exchange) {
    x.authR == y.authR && Same(x.initiator, y.initiator) && Same(x.responder, y.responder) && x.phi == y.phi
  }

  ghost predicate Sound(x: Exchange, curve: C.Curve) {
    && OnCurve(x.initiator) && OnCurve(x.responder) && Writable(x)
    && C.Sendable(x.initiator.profile, curve) && C.Sendable(x.responder.profile, curve)
  }

  predicate Apart(kdf: Kdf, u: nat, s: seq<Byte>, t: seq<Byte>) { kdf(u, s) == kdf(u, t) ==> s == t }

  /** The KDF does not collide on what the two transcripts hash. */
  predicate NoCollision(kdf: Kdf, u: nat, x: Exchange, y: Exchange)
    requires Serializable(x) && Serializable(y)
  {
    && Apart(kdf, u, C.Serialize(x.initiator.profile).bytes, C.Serialize(y.initiator.profile).bytes)
    && Apart(kdf, u + 1, C.Serialize(x.responder.profile).bytes, C.Serialize(y.responder.profile).bytes)
    && Apart(kdf, u + 2, x.phi, y.phi)
  }

  lemma EqualTranscripts(kdf: Kdf, u: nat, x: Exchange, y: Exchange, curve: C.Curve)
    requires Hashes(kdf) && Sound(x, curve) && Sound(y, curve)
    requires Serializable(x) && Serializable(y) && NoCollision(kdf, u, x, y) && Full(kdf, u, x) == Full(kdf, u, y)
    ensures Same(x.initiator, y.initiator) && Same(x.responder, y.responder) && x.phi == y.phi
  {
    var ix, iy := C.Serialize(x.initiator.profile).bytes, C.Serialize(y.initiator.profile).bytes;
    var rx, ry := C.Serialize(x.responder.profile).bytes, C.Serialize(y.responder.profile).bytes;
    var kx, ky := Keys(x, kdf(u + 2, x.phi)), Keys(y, kdf(u + 2, y.phi));
    SameFront(kdf(u, ix), kdf(u + 1, rx) + kx, kdf(u, iy), kdf(u + 1, ry) + ky);
    SameFront(kdf(u + 1, rx), kx, kdf(u + 1, ry), ky);
    SameKeysAndPhi(x, y, kdf(u + 2, x.phi), kdf(u + 2, y.phi));
    SameProfile(x.initiator.profile, y.initiator.profile, curve);
    SameProfile(x.responder.profile, y.responder.profile, curve);
  }

  lemma SameTranscripts(kdf: Kdf, u: nat, x: Exchange, y: Exchange)
    requires Writable(x) && Writable(y) && Serializable(x) && Serializable(y)
    requires Same(x.initiator, y.initiator) && Same(x.responder, y.responder) && x.phi == y.phi
    ensures Full(kdf, u, x) == Full(kdf, u, y)
  {
    SameBody(x.initiator.profile, y.initiator.profile);
    SameBody(x.responder.profile, y.responder.profile);
  }

  /** When the profiles can be serialized, two tags are equal exactly when they are of the same
      kind of message and of the same profiles, keys and phi, unless the KDF collides: a
      signature over one is a signature over nothing else. */
  lemma TagBinds(kdf: Kdf, x: Exchange, y: Exchange, curve: C.Curve)
    requires Hashes(kdf) && Sound(x, curve) && Sound(y, curve)
    requires Serializable(x) && Serializable(y) && NoCollision(kdf, Usage(x.authR), x, y)
    ensures Tag(kdf, x) == Tag(kdf, y) <==> SameExchange(x, y)
  {
    var kx, ky := [KindByte(x.authR)], [KindByte(y.authR)];
    var fx, fy := Full(kdf, Usage(x.authR), x), Full(kdf, Usage(y.authR), y);
    if kx + fx == ky + fy {
      SameFront(kx, fx, ky, fy);
      EqualTranscripts(kdf, Usage(x.authR), x, y, curve);
    }
    if SameExchange(x, y) {
      SameTranscripts(kdf, Usage(x.authR), x, y);
    }
  }

  /** The publishing mark is not part of what is signed. */
  lemma SameBody(p: C.Profile, p': C.Profile)
    requires p.(shouldPublish := 0) == p'.(shouldPublish := 0)
    ensures C.Serialize(p) == C.Serialize(p')
  {
    assert C.Fields(p) == C.Fields(p');
  }

  /** The DSA key leaves no room for the signature of its profile, or not even for the body. */
  predicate TooLong(p: C.Profile) { |p.dsaKey| > C.LongestKey(p) }
  predicate FarTooLong(p: C.Profile) { |p.dsaKey| > C.LongestKey(p) + C.ED448_SIGNATURE_BYTES }

  /** What the length of the two DSA keys, 782 bytes with a transitional signature and 824 without
      being the limit, makes of the tag. It is the bare kind of the message, whatever else the
      exchange holds, exactly when the first profile beyond the limit exceeds it by no more
      than the length of a signature; then all exchanges of that kind share it. */
  lemma TagByKeyLength(kdf: Kdf, x: Exchange, curve: C.Curve)
    requires Hashes(kdf) && Sound(x, curve)
    ensures var first := if TooLong(x.initiator.profile) then x.initiator.profile else x.responder.profile;
            && (Tag(kdf, x) == C.Written([KindByte(x.authR)]) <==> TooLong(first) && !FarTooLong(first))
            && (Tag(kdf, x) == C.Overrun <==> FarTooLong(first))
            && (Serializable(x) <==> !TooLong(first))
  {
    C.SerializeOutcome(x.initiator.profile, curve);
    C.SerializeOutcome(x.responder.profile, curve);
    assert [KindByte(x.authR)] == [KindByte(x.authR)] + [];
    if Serializable(x) {
      assert |[KindByte(x.authR)] + Full(kdf, Usage(x.authR), x)| > 1;
    }
  }

  /** The six uses of the KDF in the two kinds of tag are apart. */
  lemma UsagesApart(i: nat, j: nat)
    requires i < 3 && j < 3
    ensures Usage(true) + i != Usage(false) + j
  {
  }

  /** There are exchanges to sign, with any point that decodes; and tags of them that do not collide. */
  lemma SomethingToSign(point: seq<Byte>, curve: C.Curve) returns (x: Exchange, kdf: Kdf)
    requires |point| == C.ED448_POINT_BYTES && curve(point)
    ensures Sound(x, curve) && Serializable(x) && Hashes(kdf) && NoCollision(kdf, Usage(x.authR), x, x)
  {
    var p := C.EveryKeyLength(18, false, point, curve);
    C.SerializeOutcome(p, curve);
    x := Exchange(true, Participant(p, point, None), Participant(p, point, None), []);
    kdf := (u: nat, s: seq<Byte>) => seq(HASH_BYTES, _ => 0);
  }
}
