/**
 The primitive writers and readers of src/serialize.c, src/deserialize.c and src/mpi.c. A
 writer yields the bytes it puts at the cursor; a reader looks at the rest of a buffer and
 yields the value and how many bytes it used, or nothing when the buffer is too short.
 */
module Bytes {
  import opened Prelude

  type Byte = x: int | 0 <= x < 256

  datatype Read<+T> = Read(value: T, used: nat)

  // ----------------------------------------------------------------- integers

  /** 256 to the w. */
  function Bound(w: nat): (b: nat)
    ensures b > 0
  {
    if w == 0 then 1 else 256 * Bound(w - 1)
  }

  /** n in w bytes, the most significant first; higher bits are lost. */
  function Uint(n: nat, w: nat): (s: seq<Byte>)
    ensures |s| == w
  {
    if w == 0 then [] else Uint(n / 256, w - 1) + [n % 256]
  }

  function Value(s: seq<Byte>): (n: nat)
    ensures n < Bound(|s|)
  {
    if s == [] then 0 else Value(s[..|s| - 1]) * 256 + s[|s| - 1]
  }

  lemma ValueAppend(s: seq<Byte>, b: Byte)
    ensures Value(s + [b]) == Value(s) * 256 + b
  {
    assert (s + [b])[..|s|] == s;
  }

  lemma {:induction false} ValueOfUint(n: nat, w: nat)
    requires n < Bound(w)
    ensures Value(Uint(n, w)) == n
  {
    if w > 0 {
      ValueOfUint(n / 256, w - 1);
      ValueAppend(Uint(n / 256, w - 1), n % 256);
    }
  }

  lemma {:induction false} UintOfValue(s: seq<Byte>)
    ensures Uint(Value(s), |s|) == s
  {
    if s != [] {
      UintOfValue(s[..|s| - 1]);
      assert s == s[..|s| - 1] + [s[|s| - 1]];
    }
  }

  /** The bounds of the integers the formats use. */
  /** The most significant byte comes first. */
  lemma UintOfBytes(a: Byte, b: Byte, c: Byte, d: Byte)
    ensures Uint(a * 0x100_0000 + b * 0x1_0000 + c * 0x100 + d, 4) == [a, b, c, d]
  {
    UintOfValue([a, b, c, d]);
    var s := [a, b, c, d];
    assert s[..3] == [a, b, c] && s[..3][..2] == [a, b] && s[..3][..2][..1] == [a];
    assert Value([a]) == a && Value([a, b]) == a * 256 + b && Value([a, b, c]) == (a * 256 + b) * 256 + c;
  }

  lemma Bounds()
    ensures Bound(1) == 0x100 && Bound(2) == 0x1_0000 && Bound(4) == 0x1_0000_0000
    ensures Bound(8) == 0x1_0000_0000_0000_0000
  {
  }

  predicate NulFree(s: seq<Byte>) { 0 !in s }

  /** The bytes before the first NUL, or all of them. */
  function UpToNul(s: seq<Byte>): (t: seq<Byte>)
    ensures t <= s && NulFree(t) && (|t| < |s| ==> s[|t|] == 0)
  {
    if s == [] || s[0] == 0 then [] else [s[0]] + UpToNul(s[1..])
  }

  function ReadUint(buffer: seq<Byte>, w: nat): Option<Read<nat>> {
    if |buffer| < w then None else Some(Read(Value(buffer[..w]), w))
  }

  lemma ReadWrittenUint(n: nat, w: nat, rest: seq<Byte>)
    requires n < Bound(w)
    ensures ReadUint(Uint(n, w) + rest, w) == Some(Read(n, w))
  {
    assert (Uint(n, w) + rest)[..w] == Uint(n, w);
    ValueOfUint(n, w);
  }

  /** n shifted right by k bytes. */
  function ShiftRight(n: nat, k: nat): nat {
    if k == 0 then n else ShiftRight(n / 256, k - 1)
  }

  lemma {:induction false} ShiftOneMore(n: nat, k: nat)
    ensures ShiftRight(n, k) / 256 == ShiftRight(n, k + 1)
  {
    if k > 0 {
      ShiftOneMore(n / 256, k - 1);
    }
  }

  /** serialize_uint: byte i of the target is the data shifted right by the bytes after it. */
  method SerializeUint(target: array<Byte>, at: nat, data: nat, offset: nat) returns (written: nat)
    requires at + offset <= target.Length
    modifies target
    ensures written == offset
    ensures target[at..at + offset] == Uint(data, offset)
    ensures forall k | 0 <= k < target.Length && !(at <= k < at + offset) :: target[k] == old(target[k])
  {
    var i, shift := 0, offset;
    while i < offset
      invariant 0 <= i <= offset && shift == offset - i
      invariant target[at..at + i] == Uint(ShiftRight(data, shift), i)
      invariant forall k | 0 <= k < target.Length && !(at <= k < at + offset) :: target[k] == old(target[k])
    {
      shift := shift - 1;
      ShiftOneMore(data, shift);
      target[at + i] := ShiftRight(data, shift) % 256;
      assert target[at..at + i + 1] == target[at..at + i] + [target[at + i]];
      i := i + 1;
    }
    written := offset;
  }

  /** memcpy. */
  method CopyInto(target: array<Byte>, at: nat, s: seq<Byte>)
    requires at + |s| <= target.Length
    modifies target
    ensures target[..at + |s|] == old(target[..at]) + s
    ensures target[at + |s|..] == old(target[at + |s|..])
  {
    forall k | 0 <= k < |s| {
      target[at + k] := s[k];
    }
  }

  /** memcpy to the cursor, which then moves on. */
  method Append(dst: array<Byte>, cursor: nat, s: seq<Byte>) returns (cursor': nat)
    requires cursor + |s| <= dst.Length
    modifies dst
    ensures cursor' == cursor + |s| && dst[..cursor'] == old(dst[..cursor]) + s
  {
    CopyInto(dst, cursor, s);
    cursor' := cursor + |s|;
  }

  // --------------------------------------------------------- length-prefixed data

  function Data(s: seq<Byte>): seq<Byte> { Uint(|s|, 4) + s }

  /** otrng_deserialize_data; nothing is allocated for a zero length. */
  function ReadData(buffer: seq<Byte>): Option<Read<seq<Byte>>> {
    match ReadUint(buffer, 4)
    case None => None
    case Some(len) =>
      if |buffer| - 4 < len.value then None else Some(Read(buffer[4..4 + len.value], 4 + len.value))
  }

  lemma DataWritten(buffer: seq<Byte>)
    requires ReadData(buffer).Some?
    ensures Data(ReadData(buffer).value.value) == buffer[..ReadData(buffer).value.used]
  {
    UintOfValue(buffer[..4]);
    var r := ReadData(buffer).value;
    assert buffer[..r.used] == buffer[..4] + buffer[4..r.used];
  }

  lemma ReadWrittenData(s: seq<Byte>, rest: seq<Byte>)
    requires |s| < 0x1_0000_0000
    ensures ReadData(Data(s) + rest) == Some(Read(s, 4 + |s|))
  {
    assert Bound(4) == 0x1_0000_0000;
    assert Data(s) + rest == Uint(|s|, 4) + (s + rest);
    ReadWrittenUint(|s|, 4, s + rest);
    assert (Data(s) + rest)[4..4 + |s|] == s;
  }

  /** Fixed-size bytes. */
  function ReadBytes(buffer: seq<Byte>, n: nat): Option<Read<seq<Byte>>> {
    if |buffer| < n then None else Some(Read(buffer[..n], n))
  }

  lemma ReadWrittenBytes(s: seq<Byte>, rest: seq<Byte>)
    ensures ReadBytes(s + rest, |s|) == Some(Read(s, |s|))
  {
    assert (s + rest)[..|s|] == s;
  }

  // ------------------------------------------------------------- multi-precision

  const DH_BYTES := 384
  const DH_MPI_MAX_BYTES := 4 + DH_BYTES

  /** The unsigned form without leading zero bytes; zero has no bytes at all. */
  function Magnitude(n: nat): (s: seq<Byte>)
    ensures n > 0 ==> s != [] && s[0] != 0
  {
    if n == 0 then [] else Magnitude(n / 256) + [n % 256]
  }

  lemma {:induction false} ValueOfMagnitude(n: nat)
    ensures Value(Magnitude(n)) == n
  {
    if n > 0 {
      ValueOfMagnitude(n / 256);
      ValueAppend(Magnitude(n / 256), n % 256);
    }
  }

  /** Appending a byte to a magnitude: the number below is the front, the remainder the byte. */
  lemma MagnitudeAppend(v: nat, b: Byte)
    requires v > 0 || b > 0
    ensures Magnitude(v * 256 + b) == Magnitude(v) + [b]
  {
    var n := v * 256 + b;
    assert n / 256 == v && n % 256 == b;
  }

  lemma MagnitudeStep(front: seq<Byte>, b: Byte, v: nat)
    requires v == Value(front) && Magnitude(v) == front && (if front == [] then b != 0 else v > 0)
    ensures Magnitude(v * 256 + b) == front + [b] && v * 256 + b > 0
  {
    MagnitudeAppend(v, b);
  }

  lemma MagnitudeExtended(s: seq<Byte>, front: seq<Byte>, b: Byte)
    requires s == front + [b] && s[0] != 0 && Magnitude(Value(front)) == front && (front != [] ==> Value(front) > 0)
    ensures Magnitude(Value(s)) == s && Value(s) > 0
  {
    ValueAppend(front, b);
    MagnitudeStep(front, b, Value(front));
  }

  lemma {:induction false} MagnitudeOfValue(s: seq<Byte>)
    requires s == [] || s[0] != 0
    ensures Magnitude(Value(s)) == s && (s != [] ==> Value(s) > 0)
  {
    if s != [] {
      var front, b := s[..|s| - 1], s[|s| - 1];
      MagnitudeOfValue(front);
      MagnitudeExtended(s, front, b);
    }
  }

  /** otrng_serialize_dh_mpi_otr: a missing number is written like zero, one of more than 384
      bytes not at all. */
  function DhMpi(n: Option<nat>): Option<seq<Byte>> {
    match n
    case None => Some(Data([]))
    case Some(v) => if |Magnitude(v)| > DH_BYTES then None else Some(Data(Magnitude(v)))
  }

  /** otrng_deserialize_dh_mpi_otr: no bytes leave the number missing. */
  function ReadDhMpi(buffer: seq<Byte>): Option<Read<Option<nat>>> {
    match ReadData(buffer)
    case None => None
    case Some(d) => Some(Read(if d.value == [] then None else Some(Value(d.value)), d.used))
  }

  /** The number comes back, except that zero comes back as missing. */
  lemma ReadWrittenDhMpi(n: Option<nat>, rest: seq<Byte>)
    requires DhMpi(n).Some?
    ensures ReadDhMpi(DhMpi(n).value + rest)
            == Some(Read(if n == Some(0) then None else n, |DhMpi(n).value|))
  {
    match n
    case None => ReadWrittenData([], rest);
    case Some(v) =>
      ReadWrittenData(Magnitude(v), rest);
      ValueOfMagnitude(v);
  }
}
