/** TLVs (src/tlv.c), padding (src/padding.c), and the plaintext they make up with the text. */
module Tlvs {
  import opened Prelude
  import opened Bytes

  const TLV_NONE := -1
  const TLV_PADDING := 0
  const TLV_TYPES_LENGTH := 8

  datatype Tlv = Tlv(kind: int, data: seq<Byte>)

  /** A TLV as the library makes them: a known type, a length of 16 bits. */
  predicate Proper(t: Tlv) { 0 <= t.kind < TLV_TYPES_LENGTH && |t.data| <= 0xFFFF }

  predicate AllProper(tlvs: seq<Tlv>) { forall t | t in tlvs :: Proper(t) }

  // ------------------------------------------------------------------ writing

  function ToUint16(n: int): nat { n % 0x1_0000 }

  function SerializeTlv(t: Tlv): (s: seq<Byte>)
    ensures |s| == 4 + |t.data|
  {
    Uint(ToUint16(t.kind), 2) + Uint(|t.data|, 2) + t.data
  }

  function SerializeAll(tlvs: seq<Tlv>): seq<Byte> {
    if tlvs == [] then [] else SerializeTlv(tlvs[0]) + SerializeAll(tlvs[1..])
  }

  lemma {:induction false} SerializeConcat(a: seq<Tlv>, b: seq<Tlv>)
    ensures SerializeAll(a + b) == SerializeAll(a) + SerializeAll(b)
  {
    if a == [] {
      assert a + b == b;
    } else {
      assert (a + b)[1..] == a[1..] + b;
      SerializeConcat(a[1..], b);
    }
  }

  /** What one more TLV adds behind those before it, and takes from those to come. */
  lemma OneMoreWritten(tlvs: seq<Tlv>, i: nat)
    requires i < |tlvs|
    ensures SerializeAll(tlvs[..i + 1]) == SerializeAll(tlvs[..i]) + SerializeTlv(tlvs[i])
    ensures SerializeAll(tlvs[i..]) == SerializeTlv(tlvs[i]) + SerializeAll(tlvs[i + 1..])
  {
    assert tlvs[..i + 1] == tlvs[..i] + [tlvs[i]] && tlvs[i..][1..] == tlvs[i + 1..];
    SerializeConcat(tlvs[..i], [tlvs[i]]);
    assert SerializeAll([tlvs[i]]) == SerializeTlv(tlvs[i]) + [];
  }

  /** serialize_tlvs: a first pass adds up the lengths, a second one writes. */
  method SerializeTlvs(tlvs: seq<Tlv>) returns (dst: array<Byte>)
    ensures fresh(dst) && dst[..] == SerializeAll(tlvs)
  {
    var len, i := 0, 0;
    while i < |tlvs|
      invariant 0 <= i <= |tlvs| && len == |SerializeAll(tlvs[..i])|
    {
      OneMoreWritten(tlvs, i);
      len := len + |tlvs[i].data| + 4;
      i := i + 1;
    }
    assert tlvs[..|tlvs|] == tlvs;
    dst := new Byte[len];
    var cursor := 0;
    i := 0;
    while i < |tlvs|
      invariant 0 <= i <= |tlvs| && cursor == |SerializeAll(tlvs[..i])|
      invariant cursor + |SerializeAll(tlvs[i..])| == len
      invariant cursor <= len && dst[..cursor] == SerializeAll(tlvs[..i])
    {
      OneMoreWritten(tlvs, i);
      var s := SerializeTlv(tlvs[i]);
      CopyInto(dst, cursor, s);
      cursor := cursor + |s|;
      i := i + 1;
    }
    assert dst[..] == dst[..len];
  }

  // ------------------------------------------------------------------ reading

  /** set_tlv_type. */
  function KindOf(n: nat): int { if n < TLV_TYPES_LENGTH then n else TLV_NONE }

  function ParseTlv(src: seq<Byte>): (r: Option<Read<Tlv>>)
    ensures r.Some? ==> 4 <= r.value.used <= |src| && r.value.used == 4 + |r.value.value.data|
  {
    match ReadUint(src, 2)
    case None => None
    case Some(kind) =>
      match ReadUint(src[2..], 2)
      case None => None
      case Some(len) =>
        if |src| - 4 < len.value then None
        else Some(Read(Tlv(KindOf(kind.value), src[4..4 + len.value]), 4 + len.value))
  }

  /** As many TLVs as can be read; the rest is ignored. */
  function ParseTlvs(src: seq<Byte>): seq<Tlv> {
    if src == [] then []
    else
      match ParseTlv(src)
      case None => []
      case Some(r) => [r.value] + ParseTlvs(src[r.used..])
  }

  /** otrng_parse_tlvs: every TLV read is appended to the list. */
  method ParseTlvList(bytes: seq<Byte>) returns (tlvs: seq<Tlv>)
    ensures tlvs == ParseTlvs(bytes)
  {
    tlvs := [];
    var src := bytes;
    while |src| > 0
      invariant tlvs + ParseTlvs(src) == ParseTlvs(bytes)
      decreases |src|
    {
      var r := ParseTlv(src);
      if r.None? {
        break;
      }
      assert tlvs + ([r.value.value] + ParseTlvs(src[r.value.used..]))
          == (tlvs + [r.value.value]) + ParseTlvs(src[r.value.used..]);
      tlvs := tlvs + [r.value.value];
      src := src[r.value.used..];
    }
    assert tlvs + [] == tlvs;
  }

  lemma ParseSerializedOne(t: Tlv, rest: seq<Byte>)
    requires Proper(t)
    ensures ParseTlv(SerializeTlv(t) + rest) == Some(Read(t, 4 + |t.data|))
  {
    Bounds();
    var s := SerializeTlv(t) + rest;
    var tail := Uint(|t.data|, 2) + (t.data + rest);
    assert s == Uint(t.kind, 2) + tail;
    ReadWrittenUint(t.kind, 2, tail);
    assert s[2..] == tail;
    ReadWrittenUint(|t.data|, 2, t.data + rest);
    assert s[4..4 + |t.data|] == t.data;
  }

  lemma ParseAfterOne(t: Tlv, tail: seq<Byte>)
    requires Proper(t)
    ensures ParseTlvs(SerializeTlv(t) + tail) == [t] + ParseTlvs(tail)
  {
    ParseSerializedOne(t, tail);
    assert (SerializeTlv(t) + tail)[4 + |t.data|..] == tail;
  }

  /** A TLV of a type from 8 on is read too, so that those behind it are found, but as of no type. */
  lemma UnknownTypeRead(kind: nat, data: seq<Byte>, rest: seq<Byte>)
    requires 8 <= kind < 0x1_0000 && |data| <= 0xFFFF
    ensures ParseTlvs(Uint(kind, 2) + (Uint(|data|, 2) + (data + rest))) == [Tlv(-1, data)] + ParseTlvs(rest)
  {
    Bounds();
    var tail := Uint(|data|, 2) + (data + rest);
    var s := Uint(kind, 2) + tail;
    ReadWrittenUint(kind, 2, tail);
    assert s[2..] == tail;
    ReadWrittenUint(|data|, 2, data + rest);
    assert s[4..4 + |data|] == data && s[4 + |data|..] == rest;
  }

  /** Reading undoes writing, whatever follows. */
  lemma {:induction false} ParseSerialized(tlvs: seq<Tlv>, rest: seq<Byte>)
    requires AllProper(tlvs)
    ensures ParseTlvs(SerializeAll(tlvs) + rest) == tlvs + ParseTlvs(rest)
  {
    if tlvs == [] {
      assert SerializeAll(tlvs) + rest == rest;
    } else {
      ParseSerialized(tlvs[1..], rest);
      assert tlvs == [tlvs[0]] + tlvs[1..];
      ParseThen(tlvs[0], tlvs[1..], rest, ParseTlvs(rest));
    }
  }

  lemma ParseThen(first: Tlv, others: seq<Tlv>, rest: seq<Byte>, after: seq<Tlv>)
    requires Proper(first) && ParseTlvs(SerializeAll(others) + rest) == others + after
    ensures ParseTlvs(SerializeAll([first] + others) + rest) == [first] + others + after
  {
    SerializeThen(first, others, rest);
    ParseAfterOne(first, SerializeAll(others) + rest);
    assert [first] + (others + after) == [first] + others + after;
  }

  lemma SerializeThen(first: Tlv, others: seq<Tlv>, rest: seq<Byte>)
    ensures SerializeAll([first] + others) + rest == SerializeTlv(first) + (SerializeAll(others) + rest)
  {
    SerializeCons(first, others);
  }

  lemma SerializeParsedOne(src: seq<Byte>)
    requires ParseTlv(src).Some? && ParseTlv(src).value.value.kind != TLV_NONE
    ensures src[..ParseTlv(src).value.used] == SerializeTlv(ParseTlv(src).value.value)
  {
    var r := ParseTlv(src).value;
    UintOfValue(src[..2]);
    UintOfValue(src[2..][..2]);
    assert src[2..4] == src[2..][..2];
    assert src[..r.used] == src[..2] + src[2..4] + src[4..r.used];
  }

  /** What is left of a buffer when no more TLVs can be read. */
  function Leftover(src: seq<Byte>): seq<Byte> {
    if src == [] || ParseTlv(src).None? then src else Leftover(src[ParseTlv(src).value.used..])
  }

  /** Writing undoes reading as far as reading came, unless a type was unknown. */
  lemma {:induction false} SerializeParsed(src: seq<Byte>)
    requires forall t | t in ParseTlvs(src) :: t.kind != TLV_NONE
    ensures src == SerializeAll(ParseTlvs(src)) + Leftover(src)
    decreases |src|
  {
    if src != [] && ParseTlv(src).Some? {
      var r := ParseTlv(src).value;
      ParsesFirst(src, r);
      SerializeParsedOne(src);
      SerializeParsed(src[r.used..]);
      Rejoined(src, r.used, r.value, ParseTlvs(src[r.used..]), Leftover(src));
    }
  }

  lemma ParsesFirst(src: seq<Byte>, r: Read<Tlv>)
    requires src != [] && ParseTlv(src) == Some(r)
    ensures ParseTlvs(src) == [r.value] + ParseTlvs(src[r.used..]) && Leftover(src) == Leftover(src[r.used..])
    ensures r.value in ParseTlvs(src) && forall t | t in ParseTlvs(src[r.used..]) :: t in ParseTlvs(src)
  {
    assert ParseTlvs(src) == [r.value] + ParseTlvs(src[r.used..]);
    assert ParseTlvs(src)[0] == r.value;
  }

  lemma Rejoined(src: seq<Byte>, used: nat, first: Tlv, others: seq<Tlv>, left: seq<Byte>)
    requires used <= |src| && src[..used] == SerializeTlv(first) && src[used..] == SerializeAll(others) + left
    ensures src == SerializeAll([first] + others) + left
  {
    SerializeCons(first, others);
    assert src == src[..used] + src[used..];
  }

  lemma SerializeCons(first: Tlv, others: seq<Tlv>)
    ensures SerializeAll([first] + others) == SerializeTlv(first) + SerializeAll(others)
  {
    assert ([first] + others)[1..] == others;
  }

  // ------------------------------------------------------------------ padding

  function Zeros(n: nat): (s: seq<Byte>)
    ensures |s| == n
  {
    seq(n, _ => 0)
  }

  /** The remainder of unsigned division. */
  function Rem(x: nat, d: nat): (r: nat)
    requires d > 0
    ensures r < d
  {
    if x < d then x else Rem(x - d, d)
  }

  function PaddingLen(msgLen: nat, max: nat): (len: nat)
    ensures len <= max && (max > 0 ==> len > 0)
  {
    if max == 0 then 0 else max - Rem(msgLen + 4 + 1, max)
  }

  /** The padding TLV; its length field keeps 16 bits of the computed length. */
  function PaddingTlv(len: nat): Tlv { Tlv(TLV_PADDING, Zeros(ToUint16(len))) }

  /** generate_padding: one TLV, or none when padding is off. */
  function Padding(msgLen: nat, max: nat): (p: seq<Tlv>)
    ensures AllProper(p) && |p| == if max == 0 then 0 else 1
  {
    if PaddingLen(msgLen, max) == 0 then [] else [PaddingTlv(PaddingLen(msgLen, max))]
  }

  // ---------------------------------------------------------------- plaintext

  /** Padding is zeros. */
  lemma PaddingIsZeros(msgLen: nat, max: nat)
    ensures forall t | t in Padding(msgLen, max) :: t.kind == 0 && forall b | b in t.data :: b == 0
  {
  }

  /** The text up to its NUL, then the TLVs, then padding. */
  function Unpadded(text: seq<Byte>, tlvs: seq<Tlv>): seq<Byte> { text + [0] + SerializeAll(tlvs) }

  function Plaintext(text: seq<Byte>, tlvs: seq<Tlv>, max: nat): seq<Byte> {
    Unpadded(text, tlvs) + SerializeAll(Padding(|Unpadded(text, tlvs)|, max))
  }

  /** append_tlvs: one buffer for the text, its NUL, the TLVs and the padding. */
  method AppendTlvs(text: seq<Byte>, tlvs: seq<Tlv>, max: nat) returns (dst: array<Byte>)
    ensures fresh(dst) && dst[..] == Plaintext(text, tlvs, max)
  {
    var ser := SerializeTlvs(tlvs);
    var msgLen := |text| + 1 + ser.Length;
    assert msgLen == |Unpadded(text, tlvs)|;
    var padding := SerializeTlvs(Padding(msgLen, max));
    dst := new Byte[msgLen + padding.Length];
    CopyInto(dst, 0, text);
    dst[|text|] := 0;
    assert dst[..|text| + 1] == text + [0];
    CopyInto(dst, |text| + 1, ser[..]);
    assert dst[..msgLen] == Unpadded(text, tlvs);
    CopyInto(dst, msgLen, padding[..]);
    assert dst[..] == dst[..msgLen + padding.Length];
  }

  /** What is displayed: the text, if it is not empty. */
  function Displayed(plain: seq<Byte>): Option<seq<Byte>> {
    if UpToNul(plain) == [] then None else Some(UpToNul(plain))
  }

  /** deserialize_received_tlvs. */
  function ReceivedTlvs(plain: seq<Byte>): seq<Tlv> {
    var n := |UpToNul(plain)|;
    if n == |plain| then [] else ParseTlvs(plain[n + 1..])
  }

  lemma {:induction false} TextEnds(text: seq<Byte>, rest: seq<Byte>)
    requires NulFree(text)
    ensures UpToNul(text + [0] + rest) == text
  {
    var s := text + [0] + rest;
    if text != [] {
      assert text[0] in text && s[0] == text[0];
      assert s[1..] == text[1..] + [0] + rest;
      TextEnds(text[1..], rest);
    }
  }

  /** The receiver recovers the text and the TLVs, followed by the padding TLV if there is one. */
  lemma PlaintextRoundTrip(text: seq<Byte>, tlvs: seq<Tlv>, max: nat)
    requires NulFree(text) && AllProper(tlvs)
    ensures Displayed(Plaintext(text, tlvs, max)) == if text == [] then None else Some(text)
    ensures ReceivedTlvs(Plaintext(text, tlvs, max)) == tlvs + Padding(|Unpadded(text, tlvs)|, max)
  {
    var padding := Padding(|Unpadded(text, tlvs)|, max);
    var plain := Plaintext(text, tlvs, max);
    var body := SerializeAll(tlvs) + SerializeAll(padding);
    assert plain == text + [0] + body;
    TextEnds(text, body);
    assert plain[|text| + 1..] == body;
    SerializeConcat(tlvs, padding);
    ParseSerialized(tlvs + padding, []);
    assert SerializeAll(tlvs + padding) + [] == body;
    assert tlvs + padding + [] == tlvs + padding;
  }

  // ------------------------------------------------------------ lengths on the wire

  lemma {:induction false} RoundedUp(a: nat, max: nat)
    requires max > 0
    ensures Rem(a + (max - Rem(a, max)), max) == 0
  {
    if a >= max {
      RoundedUp(a - max, max);
    }
  }

  lemma PlaintextLength(text: seq<Byte>, tlvs: seq<Tlv>, max: nat)
    requires max > 0
    ensures |Plaintext(text, tlvs, max)|
            == |Unpadded(text, tlvs)| + 4 + ToUint16(PaddingLen(|Unpadded(text, tlvs)|, max))
  {
    var n := |Unpadded(text, tlvs)|;
    var padding := Padding(n, max);
    assert padding == [PaddingTlv(PaddingLen(n, max))] && padding[1..] == [];
    assert SerializeAll(padding) == SerializeTlv(padding[0]) + [];
  }

  /** Up to a granularity of 65536, one more byte always completes a multiple of it: the length
      says nothing else about the text and the TLVs. */
  lemma PaddingHidesLength(text: seq<Byte>, tlvs: seq<Tlv>, max: nat)
    requires 0 < max <= 0x1_0000
    ensures Rem(|Plaintext(text, tlvs, max)| + 1, max) == 0
  {
    var n := |Unpadded(text, tlvs)|;
    PlaintextLength(text, tlvs, max);
    RoundedUp(n + 5, max);
    assert PaddingLen(n, max) == 0x1_0000 ==> Rem(n + 5, max) == 0;
  }

  /** Beyond that the padding length loses its high bits, and some text has another remainder. */
  lemma LargeGranularityLeaks(max: nat) returns (text: seq<Byte>)
    requires max > 0x1_0000
    ensures NulFree(text) && Rem(|Plaintext(text, [], max)| + 1, max) != 0
  {
    var n := 2 * max - 0x1_0000 - 6;
    text := seq(n, _ => 65);
    var m := |Unpadded(text, [])|;
    assert m + 5 == 2 * max - 0x1_0000;
    assert Rem(m + 5, max) == Rem(max - 0x1_0000, max) == max - 0x1_0000;
    PlaintextLength(text, [], max);
    assert PaddingLen(m, max) == 0x1_0000;
  }
}
