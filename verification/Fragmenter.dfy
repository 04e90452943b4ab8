/** Cutting a message into fragments, with the integer conversions of otrng_fragment_message. */
module Fragmenter {
  import opened Prelude
  import opened FragmentFormat

  const SIZE_T := 0x1_0000_0000_0000_0000

  /** A size_t to an int. */
  function ToInt(x: nat): (r: int)
    ensures r <= x
  {
    var r := x % 0x1_0000_0000;
    if r < 0x8000_0000 then r else r - 0x1_0000_0000
  }

  /** The int has the same low 32 bits. */
  lemma ToIntIs(x: nat)
    ensures -0x8000_0000 <= ToInt(x) < 0x8000_0000 && (x - ToInt(x)) % 0x1_0000_0000 == 0
  {
  }

  /** max_size - FRAGMENT_HEADER_LEN as a size_t: enormous when max_size is too small. */
  function Limit(maxSize: int): nat { (maxSize - FRAGMENT_HEADER_LEN) % SIZE_T }

  /** Unsigned division. */
  function Div(x: nat, d: nat): (q: nat)
    requires d > 0
    ensures q <= x
  {
    if x < d then 0 else 1 + Div(x - d, d)
  }

  /** ((msg_len - 1) / limit) + 1 in size_t, then to int; msg_len - 1 wraps for an empty message. */
  function Total(len: nat, limit: nat): int
    requires limit > 0
  {
    ToInt((Div((len - 1) % SIZE_T, limit) + 1) % SIZE_T)
  }

  function PieceLen(msg: string, limit: nat): nat { if |msg| < limit then |msg| else limit }

  /** The first n pieces. */
  function Pieces(msg: string, limit: nat, n: nat): (p: seq<string>)
    ensures |p| == n
    decreases n
  {
    if n == 0 then [] else
      var k := PieceLen(msg, limit);
      [msg[..k]] + Pieces(msg[k..], limit, n - 1)
  }

  /** The fragments with these pieces, numbered from first + 1. */
  function Fragments(pieces: seq<string>, identifier: nat, our: nat, their: nat, first: nat, total: nat): (f: seq<string>)
    ensures |f| == |pieces|
    ensures forall k | 0 <= k < |pieces| :: f[k] == Format(Header(identifier, our, their, first + k + 1, total), pieces[k])
    decreases |pieces|
  {
    if pieces == [] then [] else
      [Format(Header(identifier, our, their, first + 1, total), pieces[0])]
      + Fragments(pieces[1..], identifier, our, their, first + 1, total)
  }

  datatype Route = Route(identifier: nat, our: nat, their: nat)

  function Numbered(to: Route, i: nat, total: nat): Header { Header(to.identifier, to.our, to.their, i + 1, total) }

  /** The fragments from number i on, as they are cut: each length goes through an int, and a negative
      one is refused. */
  function Cut(msg: string, limit: nat, to: Route, i: nat, total: nat): Option<seq<string>>
    requires i <= total
    decreases total - i
  {
    if i == total then Some([]) else
      var k := ToInt(PieceLen(msg, limit));
      if k < 0 then None else Ahead(Format(Numbered(to, i, total), msg[..k]), Cut(msg[k..], limit, to, i + 1, total))
  }

  function Ahead(fragment: string, rest: Option<seq<string>>): Option<seq<string>> {
    match rest
    case None => None
    case Some(f) => Some([fragment] + f)
  }

  function After(done: seq<string>, rest: Option<seq<string>>): Option<seq<string>> {
    match rest
    case None => None
    case Some(f) => Some(done + f)
  }

  lemma AfterEnds(done: seq<string>, rest: Option<seq<string>>)
    ensures After([], rest) == rest && After(done, Some([])) == Some(done)
  {
    assert rest.Some? ==> [] + rest.value == rest.value;
    assert done + [] == done;
  }

  lemma AfterAhead(done: seq<string>, fragment: string, rest: Option<seq<string>>)
    ensures After(done, Ahead(fragment, rest)) == After(done + [fragment], rest)
  {
    if rest.Some? {
      assert done + ([fragment] + rest.value) == done + [fragment] + rest.value;
    }
  }

  /** The subtraction does not overflow an int, nor is the division by zero. */
  predicate LimitDefined(maxSize: int) {
    maxSize != FRAGMENT_HEADER_LEN && maxSize - FRAGMENT_HEADER_LEN >= -0x8000_0000
  }

  /** otrng_fragment_message. */
  method FragmentMessage(maxSize: int, identifier: nat, our: nat, their: nat, message: string)
    returns (defined: bool, fragments: Option<seq<string>>)
    requires -0x8000_0000 <= maxSize < 0x8000_0000 && |message| < SIZE_T
    ensures defined <==> LimitDefined(maxSize)
    ensures defined ==>
              var total := Total(|message|, Limit(maxSize));
              fragments == if 1 <= total <= 65535 then Cut(message, Limit(maxSize), Route(identifier, our, their), 0, total)
                           else None
  {
    if !LimitDefined(maxSize) {
      return false, None;
    }
    var limit := Limit(maxSize);
    var total := Total(|message|, limit);
    if total < 1 || total > 65535 {
      return true, None;
    }
    fragments := CutMessage(limit, total, Route(identifier, our, their), message);
    defined := true;
  }

  method CutMessage(limit: nat, total: nat, to: Route, message: string) returns (fragments: Option<seq<string>>)
    ensures fragments == Cut(message, limit, to, 0, total)
  {
    var done: seq<string> := [];
    var msg := message;
    var i := 0;
    AfterEnds([], Cut(message, limit, to, 0, total));
    while i < total
      invariant 0 <= i <= total
      invariant Cut(message, limit, to, 0, total) == After(done, Cut(msg, limit, to, i, total))
    {
      var pieceLen := ToInt(PieceLen(msg, limit));
      if pieceLen < 0 {
        return None;
      }
      var fragment := Format(Numbered(to, i, total), msg[..pieceLen]);
      AfterAhead(done, fragment, Cut(msg[pieceLen..], limit, to, i + 1, total));
      done := done + [fragment];
      msg := msg[pieceLen..];
      i := i + 1;
    }
    AfterEnds(done, None);
    fragments := Some(done);
  }

  /** As long as every length fits an int, the fragments are those of the pieces, numbered in order: so for every
      maximal size with room for the header, and for messages below 2^31 bytes. */
  lemma {:induction false} CutIsFragments(msg: string, limit: nat, to: Route, i: nat, total: nat)
    requires i <= total && (|msg| < 0x8000_0000 || limit < 0x8000_0000)
    ensures Cut(msg, limit, to, i, total)
            == Some(Fragments(Pieces(msg, limit, total - i), to.identifier, to.our, to.their, i, total))
    decreases total - i
  {
    if i < total {
      var k := PieceLen(msg, limit);
      SmallInt(k);
      CutIsFragments(msg[k..], limit, to, i + 1, total);
      assert Pieces(msg, limit, total - i)[1..] == Pieces(msg[k..], limit, total - i - 1);
    }
  }

  // ------------------------------------------------------- what the pieces are

  function Concat(pieces: seq<string>): string {
    if pieces == [] then "" else pieces[0] + Concat(pieces[1..])
  }

  predicate CommaFree(s: string) { ',' !in s }

  predicate PieceOf(p: string, msg: string, limit: nat) {
    0 < |p| <= limit && (CommaFree(msg) ==> CommaFree(p))
  }

  lemma OneLess(limit: nat, n: nat, len: int)
    requires n > 0
    ensures limit * n == limit * (n - 1) + limit
    ensures n > 1 && limit * (n - 1) < len ==> limit * (n - 2) < len - limit && limit <= limit * (n - 1)
  {
    assert n > 1 ==> limit * (n - 2) >= 0 && limit * (n - 1) == limit * (n - 2) + limit;
  }

  lemma {:induction false} PiecesJoin(msg: string, limit: nat, n: nat)
    requires |msg| <= limit * n
    ensures Concat(Pieces(msg, limit, n)) == msg
    decreases n
  {
    if n > 0 {
      var k := PieceLen(msg, limit);
      OneLess(limit, n, |msg|);
      assert limit * (n - 1) >= 0;
      PiecesJoin(msg[k..], limit, n - 1);
      assert Pieces(msg, limit, n) == [msg[..k]] + Pieces(msg[k..], limit, n - 1);
      assert msg[..k] + msg[k..] == msg;
    }
  }

  lemma {:induction false} PiecesAre(msg: string, limit: nat, n: nat)
    requires limit > 0 && n > 0 && limit * (n - 1) < |msg|
    ensures forall p | p in Pieces(msg, limit, n) :: PieceOf(p, msg, limit)
    decreases n
  {
    var k := PieceLen(msg, limit);
    assert Pieces(msg, limit, n) == [msg[..k]] + Pieces(msg[k..], limit, n - 1);
    assert PieceOf(msg[..k], msg, limit);
    if n > 1 {
      OneLess(limit, n, |msg|);
      PiecesAre(msg[k..], limit, n - 1);
      assert forall p | p in Pieces(msg[k..], limit, n - 1) :: PieceOf(p, msg[k..], limit);
    }
  }

  lemma {:induction false} DivIs(x: nat, d: nat)
    requires d > 0
    ensures d * Div(x, d) <= x < d * (Div(x, d) + 1)
  {
    if x >= d {
      DivIs(x - d, d);
      var q := Div(x - d, d);
      assert d * (q + 1) == d * q + d && d * (q + 2) == d * q + d + d;
    }
  }

  lemma SmallInt(x: nat)
    requires x < 0x8000_0000
    ensures x % SIZE_T == x && ToInt(x) == x
  {
  }

  /** The total is the length divided by the limit and rounded up, as long as that fits an int; and a total that
      is in range although it does not stands for too few pieces. */
  lemma TotalRoundsUp(len: nat, limit: nat) returns (n: nat)
    requires limit > 0 && 0 < len < SIZE_T
    ensures n >= 1 && limit * (n - 1) < len <= limit * n
    ensures n < 0x8000_0000 ==> Total(len, limit) == n
    ensures 1 <= Total(len, limit) <= 65535 ==> Total(len, limit) <= n && (Total(len, limit) == n || n > 65535)
  {
    n := Div(len - 1, limit) + 1;
    assert (len - 1) % SIZE_T == len - 1 && n % SIZE_T == n;
    DivIs(len - 1, limit);
  }

  lemma {:induction false} ConcatWithin(pieces: seq<string>, msg: string, limit: nat)
    requires forall p | p in pieces :: PieceOf(p, msg, limit)
    ensures |Concat(pieces)| <= limit * |pieces|
  {
    if pieces != [] {
      assert pieces[0] in pieces && forall p | p in pieces[1..] :: p in pieces;
      ConcatWithin(pieces[1..], msg, limit);
      OneLess(limit, |pieces|, 0);
    }
  }

  lemma MoreIsMore(limit: nat, n: nat, m: nat)
    requires n <= m
    ensures limit * n <= limit * m
  {
    assert limit * m == limit * n + limit * (m - n) && limit * (m - n) >= 0;
  }

  /** With room for the header: every fragment fits the maximal size and no piece is empty; and the pieces make
      up the message exactly when 65535 of them can. A longer message whose total wraps around into
      the range is cut short. */
  lemma FragmentsFit(message: string, maxSize: int, identifier: nat, our: nat, their: nat)
    requires FRAGMENT_HEADER_LEN < maxSize < 0x8000_0000 && 0 < |message| < SIZE_T
    requires 1 <= Total(|message|, Limit(maxSize)) <= 65535
    ensures var total := Total(|message|, Limit(maxSize));
            var pieces := Pieces(message, Limit(maxSize), total);
            && (Concat(pieces) == message <==> |message| <= Limit(maxSize) * 65535)
            && (forall p | p in pieces :: PieceOf(p, message, Limit(maxSize)))
            && forall f | f in Fragments(pieces, identifier, our, their, 0, total) :: |f| <= maxSize
  {
    var limit := maxSize - FRAGMENT_HEADER_LEN;
    SmallInt(limit);
    var total := Total(|message|, limit);
    PiecesMakeUp(message, limit, total);
    FragmentsWithin(message, Pieces(message, limit, total), identifier, our, their, total, maxSize);
  }

  lemma PiecesMakeUp(message: string, limit: nat, total: nat)
    requires limit > 0 && 0 < |message| < SIZE_T && total == Total(|message|, limit) && 1 <= total <= 65535
    ensures forall p | p in Pieces(message, limit, total) :: PieceOf(p, message, limit)
    ensures Concat(Pieces(message, limit, total)) == message <==> |message| <= limit * 65535
  {
    var n := TotalRoundsUp(|message|, limit);
    MoreIsMore(limit, total - 1, n - 1);
    PiecesAre(message, limit, total);
    if total == n {
      PiecesJoin(message, limit, total);
      MoreIsMore(limit, total, 65535);
    } else {
      MoreIsMore(limit, 65535, n - 1);
      MoreIsMore(limit, total, 65535);
      ConcatWithin(Pieces(message, limit, total), message, limit);
    }
  }

  /** Up to 65535 pieces the total is in range. */
  lemma TotalInRange(len: nat, limit: nat)
    requires 0 < limit < 0x8000_0000 && 0 < len <= limit * 65535
    ensures len < SIZE_T && 1 <= Total(len, limit) <= 65535
  {
    assert limit * 65535 < SIZE_T;
    var n := TotalRoundsUp(len, limit);
    if n > 65535 {
      MoreIsMore(limit, 65535, n - 1);
      assert false;
    }
  }

  lemma FragmentsWithin(msg: string, pieces: seq<string>, identifier: nat, our: nat, their: nat, total: nat,
                        maxSize: int)
    requires maxSize >= FRAGMENT_HEADER_LEN
    requires forall p | p in pieces :: PieceOf(p, msg, maxSize - FRAGMENT_HEADER_LEN)
    ensures forall f | f in Fragments(pieces, identifier, our, their, 0, total) :: |f| <= maxSize
  {
    var fs := Fragments(pieces, identifier, our, their, 0, total);
    forall k | 0 <= k < |fs|
      ensures |fs[k]| <= maxSize
    {
      assert pieces[k] in pieces;
    }
  }

  /** With a maximal size below the header's, the limit wraps and the one fragment is too long. */
  lemma TooSmallMaximum(message: string, maxSize: int)
    requires LimitDefined(maxSize) && maxSize < FRAGMENT_HEADER_LEN && 0 < |message| < 0x8000_0000
    ensures Total(|message|, Limit(maxSize)) == 1 && Pieces(message, Limit(maxSize), 1) == [message]
    ensures forall h :: |Format(h, message)| > maxSize
  {
    SmallInt(|message| - 1);
    OnePiece(message, Limit(maxSize));
  }

  lemma OnePiece(message: string, limit: nat)
    requires |message| < limit
    ensures Pieces(message, limit, 1) == [message]
  {
    assert message[..|message|] == message;
    assert Pieces(message, limit, 1) == [message[..|message|]] + Pieces(message[|message|..], limit, 0);
  }
}
