/**
 The textual form of a fragment: what snprintf writes for the fragment format and what sscanf
 reads back. The model of sscanf takes between one and the full width of digits; its
 tolerance for white space, signs and 0x prefixes is not part of this model.
 */
module FragmentFormat {
  import opened Prelude

  const FRAGMENT_HEADER_LEN := 45
  const PREFIX := "?OTR|"

  // ------------------------------------------------------------------ numbers

  predicate Base(base: nat) { base == 10 || base == 16 }

  function DigitChar(d: nat): char
    requires d < 16
  {
    "0123456789abcdef"[d]
  }

  function DigitValue(c: char): Option<nat> {
    if '0' <= c <= '9' then Some(c as int - '0' as int)
    else if 'a' <= c <= 'f' then Some(c as int - 'a' as int + 10)
    else if 'A' <= c <= 'F' then Some(c as int - 'A' as int + 10)
    else None
  }

  predicate IsDigit(c: char, base: nat) {
    DigitValue(c).Some? && DigitValue(c).value < base
  }

  /** n in exactly w digits. */
  function Digits(n: nat, base: nat, w: nat): (s: string)
    requires Base(base)
    ensures |s| == w && forall c | c in s :: IsDigit(c, base)
  {
    if w == 0 then "" else
      DigitRead(n % base);
      Digits(n / base, base, w - 1) + [DigitChar(n % base)]
  }

  lemma DigitRead(d: nat)
    requires d < 16
    ensures DigitValue(DigitChar(d)) == Some(d)
  {
  }

  /** The number a string of digits denotes, going on from acc. */
  function Value(s: string, base: nat, acc: nat): nat
    requires Base(base) && forall c | c in s :: IsDigit(c, base)
  {
    if s == "" then acc else
      assert s[|s| - 1] in s && IsDigit(s[|s| - 1], base);
      Value(s[..|s| - 1], base, acc) * base + DigitValue(s[|s| - 1]).value
  }

  /** The first number that no longer fits in w digits. */
  function Bound(base: nat, w: nat): nat
    requires Base(base)
  {
    if w == 0 then 1 else base * Bound(base, w - 1)
  }

  lemma {:induction false} ValueOfDigits(n: nat, base: nat, w: nat)
    requires Base(base) && n < Bound(base, w)
    ensures Value(Digits(n, base, w), base, 0) == n
  {
    if w > 0 {
      var s := Digits(n, base, w);
      DigitRead(n % base);
      assert s[..w - 1] == Digits(n / base, base, w - 1) && s[w - 1] == DigitChar(n % base);
      ValueOfDigits(n / base, base, w - 1);
    }
  }

  /** Length of the longest prefix of digits, at most w. */
  function Run(s: string, base: nat, w: nat): (k: nat)
    ensures k <= w && k <= |s| && forall c | c in s[..k] :: IsDigit(c, base)
    ensures k < w && k < |s| ==> !IsDigit(s[k], base)
  {
    if w == 0 || s == "" || !IsDigit(s[0], base) then 0
    else
      var k := 1 + Run(s[1..], base, w - 1);
      assert s[..k] == [s[0]] + s[1..][..k - 1];
      k
  }

  /** One %0wx or %0wu conversion: the value and what is left. */
  function Number(s: string, base: nat, w: nat): Option<(nat, string)>
    requires Base(base)
  {
    var k := Run(s, base, w);
    if k == 0 then None else Some((Value(s[..k], base, 0), s[k..]))
  }

  lemma {:induction false} RunFull(s: string, base: nat, w: nat)
    requires w <= |s| && forall c | c in s[..w] :: IsDigit(c, base)
    ensures Run(s, base, w) == w
  {
    if w > 0 {
      assert s[0] in s[..w];
      assert forall c | c in s[1..][..w - 1] :: c in s[..w];
      RunFull(s[1..], base, w - 1);
    }
  }

  lemma NumberRead(n: nat, base: nat, w: nat, rest: string)
    requires Base(base) && n < Bound(base, w) && w > 0
    ensures Number(Digits(n, base, w) + rest, base, w) == Some((n, rest))
  {
    var d := Digits(n, base, w);
    var s := d + rest;
    assert s[..w] == d && s[w..] == rest;
    RunFull(s, base, w);
    ValueOfDigits(n, base, w);
  }

  function Literal(s: string, c: char): Option<string> {
    if s != "" && s[0] == c then Some(s[1..]) else None
  }

  // ------------------------------------------------------------------ writing

  datatype Header = Header(identifier: nat, sender: nat, receiver: nat, i: nat, t: nat)

  predicate HeaderFits(h: Header) {
    && h.identifier < 0x1_0000_0000 && h.sender < 0x1_0000_0000 && h.receiver < 0x1_0000_0000
    && h.i <= 0xFFFF && h.t <= 0xFFFF
  }

  function Format(h: Header, piece: string): (s: string)
    ensures |s| == FRAGMENT_HEADER_LEN + |piece|
    ensures PREFIX <= s
  {
    PREFIX + Digits(h.identifier, 16, 8) + "|" + Digits(h.sender, 16, 8) + "|" + Digits(h.receiver, 16, 8)
    + "," + Digits(h.i, 10, 5) + "," + Digits(h.t, 10, 5) + "," + piece + ","
  }

  // ------------------------------------------------------------------ reading

  /** What the scan leaves in its variables; without a piece, the format did not match to the end. */
  datatype Scanned = Scanned(header: Header, piece: Option<string>)

  datatype Tags = Tags(identifier: nat, sender: nat, receiver: nat, rest: string)

  function ScanTags(s: string): Option<Tags> {
    match Number(s, 16, 8)
    case None => None
    case Some((identifier, s1)) =>
      match Literal(s1, '|')
      case None => None
      case Some(s2) =>
        match Number(s2, 16, 8)
        case None => None
        case Some((sender, s3)) =>
          match Literal(s3, '|')
          case None => None
          case Some(s4) =>
            match Number(s4, 16, 8)
            case None => None
            case Some((receiver, s5)) => Some(Tags(identifier, sender, receiver, s5))
  }

  /** A %05hu conversion after a comma: five digits, kept in 16 bits. */
  function ScanShort(s: string): Option<(nat, string)> {
    match Literal(s, ',')
    case None => None
    case Some(s1) =>
      match Number(s1, 10, 5)
      case None => None
      case Some((n, s2)) => Some((n % 0x1_0000, s2))
  }

  /** The characters before the first comma. */
  function BeforeComma(s: string): (k: nat)
    ensures k <= |s| && ',' !in s[..k] && (k < |s| ==> s[k] == ',')
  {
    if s == "" || s[0] == ',' then 0
    else
      var k := 1 + BeforeComma(s[1..]);
      assert s[..k] == [s[0]] + s[1..][..k - 1];
      k
  }

  /** A comma, a non-empty piece, a comma. */
  function ScanPiece(s: string): Option<string> {
    match Literal(s, ',')
    case None => None
    case Some(s1) =>
      var k := BeforeComma(s1);
      if 0 < k < |s1| then Some(s1[..k]) else None
  }

  function Scan(msg: string): Scanned
    requires PREFIX <= msg
  {
    match ScanTags(msg[|PREFIX|..])
    case None => Scanned(Header(0, 0, 0, 0, 0), None)
    case Some(tags) =>
      var unread := Scanned(Header(tags.identifier, tags.sender, tags.receiver, 0, 0), None);
      match ScanShort(tags.rest)
      case None => unread
      case Some((i, s1)) =>
        match ScanShort(s1)
        case None => unread
        case Some((t, s2)) => Scanned(Header(tags.identifier, tags.sender, tags.receiver, i, t), ScanPiece(s2))
  }

  lemma Bounds()
    ensures Bound(10, 5) == 100000 && Bound(16, 8) == 0x1_0000_0000
  {
  }

  lemma ShortRead(n: nat, rest: string)
    requires n <= 0xFFFF
    ensures ScanShort("," + (Digits(n, 10, 5) + rest)) == Some((n, rest))
  {
    Bounds();
    NumberRead(n, 10, 5, rest);
    AfterComma(n, Digits(n, 10, 5) + rest, rest);
  }

  lemma AfterComma(n: nat, s: string, rest: string)
    requires n <= 0xFFFF && Number(s, 10, 5) == Some((n, rest))
    ensures ScanShort("," + s) == Some((n, rest))
  {
    assert ("," + s)[1..] == s;
  }

  lemma TagsRead(h: Header, rest: string)
    requires HeaderFits(h)
    ensures ScanTags(Digits(h.identifier, 16, 8) + ("|" + (Digits(h.sender, 16, 8) + ("|" + (Digits(h.receiver, 16, 8) + rest)))))
            == Some(Tags(h.identifier, h.sender, h.receiver, rest))
  {
    Bounds();
    var s4 := Digits(h.receiver, 16, 8) + rest;
    var s2 := Digits(h.sender, 16, 8) + ("|" + s4);
    NumberRead(h.identifier, 16, 8, "|" + s2);
    NumberRead(h.sender, 16, 8, "|" + s4);
    NumberRead(h.receiver, 16, 8, rest);
    assert ("|" + s2)[1..] == s2 && ("|" + s4)[1..] == s4;
  }

  lemma {:induction false} BeforeCommaStops(piece: string)
    requires ',' !in piece
    ensures BeforeComma(piece + ",") == |piece|
  {
    if piece != "" {
      assert piece[0] in piece;
      assert (piece + ",")[1..] == piece[1..] + ",";
      BeforeCommaStops(piece[1..]);
    }
  }

  /** A written piece is read back exactly when it is not empty and has no comma. */
  lemma PieceRead(piece: string)
    ensures ScanPiece("," + (piece + ",")) == Some(piece) <==> piece != "" && ',' !in piece
    ensures piece == "" ==> ScanPiece("," + (piece + ",")) == None
  {
    var s := piece + ",";
    assert ("," + s)[1..] == s;
    var k := BeforeComma(s);
    if ',' !in piece {
      BeforeCommaStops(piece);
      assert s[..k] == piece;
    } else {
      assert k < |s| ==> s[..k] != piece;
    }
  }

  lemma Regroup(h: Header, piece: string)
    ensures Format(h, piece)[|PREFIX|..]
            == Digits(h.identifier, 16, 8) + ("|" + (Digits(h.sender, 16, 8) + ("|" + (Digits(h.receiver, 16, 8)
               + ("," + (Digits(h.i, 10, 5) + ("," + (Digits(h.t, 10, 5) + ("," + (piece + ","))))))))))
  {
  }

  /** Reading back a written fragment gives its header, and its piece unless that is empty or
      contains a comma. */
  lemma FormatRead(h: Header, piece: string)
    requires HeaderFits(h)
    ensures Scan(Format(h, piece)).header == h
    ensures Scan(Format(h, piece)).piece == Some(piece) <==> piece != "" && ',' !in piece
    ensures piece == "" ==> Scan(Format(h, piece)).piece == None
  {
    var tail := "," + (piece + ",");
    var afterI := "," + (Digits(h.t, 10, 5) + tail);
    Regroup(h, piece);
    TagsRead(h, "," + (Digits(h.i, 10, 5) + afterI));
    ShortRead(h.i, afterI);
    ShortRead(h.t, tail);
    PieceRead(piece);
  }

  lemma {:induction false} NoDigits(base: nat, w: nat)
    requires Base(base)
    ensures Digits(0, base, w) == seq(w, _ => '0')
  {
    if w > 0 {
      NoDigits(base, w - 1);
    }
  }

  lemma OneDigit(d: nat, base: nat, w: nat)
    requires Base(base) && d < base && w > 0
    ensures Digits(d, base, w) == seq(w - 1, _ => '0') + [DigitChar(d)]
  {
    NoDigits(base, w - 1);
  }

  lemma FewDigits(d: nat)
    requires d < 10
    ensures Digits(d, 16, 8) == "0000000" + [DigitChar(d)] && Digits(d, 10, 5) == "0000" + [DigitChar(d)]
  {
    OneDigit(d, 16, 8);
    OneDigit(d, 10, 5);
    assert seq(7, _ => '0') == "0000000" && seq(4, _ => '0') == "0000";
  }

  lemma Joined(a: string, b: string, c: string, d: string, e: string)
    requires a == "00000000" && b == "00000001" && c == "00000002" && d == "00001" && e == "00002"
    ensures "?OTR|" + a + "|" + b + "|" + c + "," + d + "," + e + "," + "one " + ","
         == "?OTR|00000000|00000001|00000002,00001,00002,one ,"
  {
    assert "?OTR|" + a + "|" == "?OTR|00000000|";
    assert "?OTR|00000000|" + b + "|" == "?OTR|00000000|00000001|";
    assert "?OTR|00000000|00000001|" + c + "," == "?OTR|00000000|00000001|00000002,";
    assert "?OTR|00000000|00000001|00000002," + d + "," == "?OTR|00000000|00000001|00000002,00001,";
    assert "?OTR|00000000|00000001|00000002,00001," + e + "," == "?OTR|00000000|00000001|00000002,00001,00002,";
  }

  /** Where no digit stands no number is read. */
  lemma NoNumber(s: string, base: nat, w: nat)
    requires Base(base) && (s == "" || DigitValue(s[0]).None?)
    ensures Number(s, base, w) == None
  {
  }

  /** Hexadecimal digits are in lower case. */
  lemma HexForm()
    ensures Digits(0xbeef, 16, 4) == "beef"
  {
    assert Digits(0xb, 16, 1) == "b" by { OneDigit(0xb, 16, 1); }
    assert Digits(0xbe, 16, 2) == Digits(0xb, 16, 1) + [DigitChar(0xe)];
    assert Digits(0xbee, 16, 3) == Digits(0xbe, 16, 2) + [DigitChar(0xe)];
    assert Digits(0xbeef, 16, 4) == Digits(0xbee, 16, 3) + [DigitChar(0xf)];
  }

  /** A piece that is not closed by a comma is not read. */
  lemma UnclosedUnread(piece: string)
    requires ',' !in piece
    ensures ScanPiece("," + piece) == None
  {
    assert ("," + piece)[1..] == piece;
    var k := BeforeComma(piece);
    if k < |piece| {
      assert false;
    }
  }

  /** The exact form, as in the first fragment of the tests: identifier 0, from instance 1 to instance 2, the first of
      two, with the piece "one ". */
  lemma PrintedForm()
    ensures Format(Header(0, 1, 2, 1, 2), "one ") == "?OTR|00000000|00000001|00000002,00001,00002,one ,"
  {
    FewDigits(0);
    FewDigits(1);
    FewDigits(2);
    assert DigitChar(0) == '0' && DigitChar(1) == '1' && DigitChar(2) == '2';
    Joined(Digits(0, 16, 8), Digits(1, 16, 8), Digits(2, 16, 8), Digits(1, 10, 5), Digits(2, 10, 5));
  }
}
