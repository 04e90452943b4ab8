/**
 Runs of reassembly: the fragments of one message, fed in any order among strings that do not
 concern it, give back exactly that message at the last fragment, and everything else in the
 table goes on as if they had not been there.
 */
module FragmentRun {
  import opened Prelude
  import opened FragmentFormat
  import opened Fragmenter
  import opened Reassembly

  /** A message on the way: its pieces, and the numbers every one of its fragments carries. */
  datatype Transfer = Transfer(identifier: nat, sender: nat, receiver: nat, pieces: seq<string>)

  predicate Readable(x: Transfer) {
    && x.identifier < 0x1_0000_0000 && x.sender < 0x1_0000_0000 && x.receiver < 0x1_0000_0000
    && 1 <= |x.pieces| <= 0xFFFF
    && forall p | p in x.pieces :: p != "" && CommaFree(p)
  }

  function HeaderOf(x: Transfer, k: nat): Header {
    Header(x.identifier, x.sender, x.receiver, k + 1, |x.pieces|)
  }

  function FragmentOf(x: Transfer, k: nat): string
    requires k < |x.pieces|
  {
    Format(HeaderOf(x, k), x.pieces[k])
  }

  /** What is fed: which[p] says whether input p is a fragment of the transfer, and which. */
  datatype Feeding = Feeding(inputs: seq<string>, which: seq<Option<nat>>, ourTag: nat)

  /** The string is a fragment under the identifier. */
  predicate Under(msg: string, identifier: nat, ourTag: nat) {
    Reaches(msg, ourTag) && Scan(msg).header.identifier == identifier
  }

  /** The string, arriving at this table, leaves alone what has been started under the identifier: it is
      foreign and does not disturb, or it is refused, as a repeated fragment is. */
  predicate Undisturbing(table: seq<Context>, msg: string, identifier: nat, ourTag: nat)
    requires AllSound(table)
  {
    Reaches(msg, ourTag) ==>
      Foreign(table, Scan(msg).header, identifier) || RefusedAt(table, Scan(msg).header, Scan(msg).piece.value, identifier)
  }

  predicate Numbered(x: Transfer, w: Feeding) {
    |w.which| == |w.inputs| && forall p | 0 <= p < |w.which| && w.which[p].Some? :: w.which[p].value < |x.pieces|
  }

  predicate Once(w: Feeding) {
    forall p, r | 0 <= p < r < |w.which| && w.which[p].Some? :: w.which[p] != w.which[r]
  }

  /** The table after the first n inputs. */
  function TableAt(table: seq<Context>, w: Feeding, n: nat): (t: seq<Context>)
    requires AllSound(table) && n <= |w.inputs|
    ensures AllSound(t)
  {
    if n == 0 then table else
      FeedKeepsSound(TableAt(table, w, n - 1), w.inputs[n - 1], w.ourTag);
      Feed(TableAt(table, w, n - 1), w.inputs[n - 1], w.ourTag).table
  }

  /** The same with all fragments under the identifier of the transfer left out. */
  function RestAt(table: seq<Context>, x: Transfer, w: Feeding, n: nat): (t: seq<Context>)
    requires AllSound(table) && n <= |w.inputs| == |w.which|
    ensures AllSound(t)
  {
    if n == 0 then table
    else if w.which[n - 1].Some? || Under(w.inputs[n - 1], x.identifier, w.ourTag) then RestAt(table, x, w, n - 1)
    else
      FeedKeepsSound(RestAt(table, x, w, n - 1), w.inputs[n - 1], w.ourTag);
      Feed(RestAt(table, x, w, n - 1), w.inputs[n - 1], w.ourTag).table
  }

  /** Fragments of the transfer, none twice, among inputs that do not disturb it when they come. */
  predicate Interleaved(table: seq<Context>, x: Transfer, w: Feeding)
    requires AllSound(table)
  {
    && Numbered(x, w) && Once(w)
    && (x.receiver == w.ourTag || x.receiver == 0)
    && (forall p | 0 <= p < |w.inputs| && w.which[p].Some? :: w.inputs[p] == FragmentOf(x, w.which[p].value))
    && (forall p: nat | p < |w.inputs| && w.which[p].None? ::
          Undisturbing(TableAt(table, w, p), w.inputs[p], x.identifier, w.ourTag))
  }

  // ------------------------------------------------------------- what has come

  /** The pieces that have come with the first n inputs. */
  function SlotsAt(x: Transfer, w: Feeding, n: nat): (f: seq<Option<string>>)
    requires Numbered(x, w) && n <= |w.inputs|
    ensures |f| == |x.pieces|
    ensures forall k | 0 <= k < |f| :: f[k] == None || f[k] == Some(x.pieces[k])
  {
    if n == 0 then Empty(|x.pieces|)
    else
      match w.which[n - 1]
      case None => SlotsAt(x, w, n - 1)
      case Some(k) => SlotsAt(x, w, n - 1)[k := Some(x.pieces[k])]
  }

  /** A slot is filled by some earlier input with its number. */
  lemma {:induction false} SlotSource(x: Transfer, w: Feeding, n: nat, k: nat) returns (p: nat)
    requires Numbered(x, w) && n <= |w.inputs| && k < |x.pieces| && SlotsAt(x, w, n)[k].Some?
    ensures p < n && w.which[p] == Some(k)
  {
    p := n - 1;
    if w.which[n - 1] != Some(k) {
      p := SlotSource(x, w, n - 1, k);
    }
  }

  /** A filled slot stays filled. */
  lemma {:induction false} SlotStays(x: Transfer, w: Feeding, p: nat, n: nat, k: nat)
    requires Numbered(x, w) && p < n <= |w.inputs| && k < |x.pieces| && w.which[p] == Some(k)
    ensures SlotsAt(x, w, n)[k].Some?
  {
    if n > p + 1 {
      SlotStays(x, w, p, n - 1, k);
    }
  }

  /** The slot of a fragment about to come is empty. */
  lemma SlotFree(x: Transfer, w: Feeding, n: nat, p: nat)
    requires Numbered(x, w) && Once(w) && n <= p < |w.inputs| && w.which[p].Some?
    ensures SlotsAt(x, w, n)[w.which[p].value] == None
  {
    if SlotsAt(x, w, n)[w.which[p].value].Some? {
      var r := SlotSource(x, w, n, w.which[p].value);
      assert false;
    }
  }

  lemma {:induction false} AllThere(f: seq<Option<string>>)
    requires forall k | 0 <= k < |f| :: f[k].Some?
    ensures CountSome(f) == |f|
  {
    if f != [] {
      AllThere(f[1..]);
    }
  }

  lemma {:induction false} NoneThere(f: seq<Option<string>>)
    requires CountSome(f) == 0
    ensures f == Empty(|f|)
  {
    if f != [] {
      NoneThere(f[1..]);
    }
  }

  lemma {:induction false} JoinFull(f: seq<Option<string>>, pieces: seq<string>)
    requires |f| == |pieces| && forall k | 0 <= k < |f| :: f[k] == Some(pieces[k])
    ensures Join(f) == Concat(pieces)
  {
    if f != [] {
      JoinFull(f[1..], pieces[1..]);
    }
  }

  // ------------------------------------------------------------ the invariant

  /** The contexts the transfer has in the table when these pieces have come. */
  function Held(identifier: nat, f: seq<Option<string>>): seq<Context> {
    if CountSome(f) == 0 || CountSome(f) == |f| then []
    else [Context(identifier, |f|, CountSome(f), |Join(f)|, f)]
  }

  /** What the table holds of the transfer, and that all else is as in the table without it. */
  ghost predicate Holds(t: seq<Context>, rest: seq<Context>, identifier: nat, held: seq<Context>, alone: bool) {
    && Started(t, identifier) == held
    && (held != [] ==> Lookup(t, identifier) == Some(held[0]))
    && Part(t, identifier, false) == Part(rest, identifier, false)
    && (alone ==> NoneIdle(t, identifier) && Absent(rest, identifier))
  }

  /** Nothing else has the identifier, now or after a reset. */
  predicate Alone(table: seq<Context>, identifier: nat) { identifier != 0 && Absent(table, identifier) }

  ghost predicate HoldsAt(table: seq<Context>, x: Transfer, w: Feeding, n: nat)
    requires AllSound(table) && Interleaved(table, x, w) && n <= |w.inputs|
  {
    Holds(TableAt(table, w, n), RestAt(table, x, w, n), x.identifier, Held(x.identifier, SlotsAt(x, w, n)),
          Alone(table, x.identifier))
  }

  /** A fragment of a readable transfer reaches the table with its header and piece. */
  lemma FragmentReaches(x: Transfer, k: nat, ourTag: nat, table: seq<Context>)
    requires Readable(x) && k < |x.pieces| && (x.receiver == ourTag || x.receiver == 0) && AllSound(table)
    ensures Feed(table, FragmentOf(x, k), ourTag) == FeedTable(table, HeaderOf(x, k), x.pieces[k])
  {
    assert x.pieces[k] in x.pieces;
    FormatRead(HeaderOf(x, k), x.pieces[k]);
  }

  /** The context a fragment of the transfer meets, and what it makes of it. */
  lemma PlaceNext(x: Transfer, f: seq<Option<string>>, k: nat, c: Context)
    requires |f| == |x.pieces| && k < |f| && f[k].None? && 1 <= |f|
    requires Held(x.identifier, f) == [c] || (Held(x.identifier, f) == [] && c == NewContext(x.identifier))
    ensures Sound(c)
    ensures var f' := f[k := Some(x.pieces[k])];
            && Kept(c, Place(c, HeaderOf(x, k), x.pieces[k])) == Held(x.identifier, f')
            && !Place(c, HeaderOf(x, k), x.pieces[k]).Refused?
            && (Place(c, HeaderOf(x, k), x.pieces[k]).Complete? <==> CountSome(f') == |f|)
            && (CountSome(f') == |f| ==> Place(c, HeaderOf(x, k), x.pieces[k]).message == Join(f'))
  {
    if CountSome(f) == |f| {
      CompleteMeansFull(f);
      assert false;
    }
    if CountSome(f) == 0 {
      NoneThere(f);
    }
    FillSlot(f, k, x.pieces[k]);
  }

  lemma OwnHolds(t: seq<Context>, rest: seq<Context>, x: Transfer, f: seq<Option<string>>, k: nat, alone: bool)
    requires AllSound(t) && |f| == |x.pieces| && k < |f| && f[k].None? && (alone ==> x.identifier != 0)
    requires Holds(t, rest, x.identifier, Held(x.identifier, f), alone)
    ensures var f' := f[k := Some(x.pieces[k])]; var r := FeedTable(t, HeaderOf(x, k), x.pieces[k]);
            && Holds(r.table, rest, x.identifier, Held(x.identifier, f'), alone)
            && r.ok && r.out == if CountSome(f') == |f| then Some(Join(f')) else None
  {
    var held := Held(x.identifier, f);
    var c := if held == [] then NewContext(x.identifier) else held[0];
    var h := HeaderOf(x, k);
    PlaceNext(x, f, k, c);
    OwnFragment(t, h, x.pieces[k], c);
    HeldStarted(x.identifier, f[k := Some(x.pieces[k])]);
    if alone {
      NoneIdleKept(t, h, x.pieces[k], x.identifier);
    }
  }

  lemma HeldStarted(identifier: nat, f: seq<Option<string>>)
    ensures Started(Held(identifier, f), identifier) == Held(identifier, f)
  {
    if Held(identifier, f) != [] {
      StartedOne(Held(identifier, f)[0], identifier);
    }
  }

  /** An input that is not a fragment to be stored is refused, if it is under the identifier, and else has the
      result it would have had without the transfer. */
  predicate OtherResult(table: seq<Context>, x: Transfer, w: Feeding, p: nat)
    requires AllSound(table) && p < |w.inputs| == |w.which|
  {
    var r, alone := Feed(TableAt(table, w, p), w.inputs[p], w.ourTag), Feed(RestAt(table, x, w, p), w.inputs[p], w.ourTag);
    if Under(w.inputs[p], x.identifier, w.ourTag) then r == Result(TableAt(table, w, p), false, None)
    else r.ok == alone.ok && r.out == alone.out
  }

  /** One fragment of the transfer. */
  lemma OwnStep(table: seq<Context>, x: Transfer, w: Feeding, n: nat)
    requires AllSound(table) && Readable(x) && Interleaved(table, x, w) && n < |w.inputs| && w.which[n].Some?
    requires HoldsAt(table, x, w, n)
    ensures HoldsAt(table, x, w, n + 1)
    ensures var r, f := Feed(TableAt(table, w, n), w.inputs[n], w.ourTag), SlotsAt(x, w, n + 1);
            r.ok && r.out == if CountSome(f) == |f| then Some(Join(f)) else None
  {
    var k := w.which[n].value;
    SlotFree(x, w, n, n);
    FragmentReaches(x, k, w.ourTag, TableAt(table, w, n));
    OwnHolds(TableAt(table, w, n), RestAt(table, x, w, n), x, SlotsAt(x, w, n), k, Alone(table, x.identifier));
  }

  lemma OtherHolds(t: seq<Context>, rest: seq<Context>, identifier: nat, held: seq<Context>, alone: bool,
                   h: Header, piece: string)
    requires AllSound(t) && AllSound(rest) && Holds(t, rest, identifier, held, alone) && (alone ==> identifier != 0)
    requires Foreign(t, h, identifier)
    ensures var r, without := FeedTable(t, h, piece), FeedTable(rest, h, piece);
            && Holds(r.table, without.table, identifier, held, alone)
            && r.ok == without.ok && r.out == without.out
  {
    ForeignKeepsStarted(t, h, piece, identifier);
    ForeignIsIndependent(t, h, piece, identifier);
    ForeignIsIndependent(rest, h, piece, identifier);
    if alone {
      NoneIdleKept(t, h, piece, identifier);
      NoneIdleKept(rest, h, piece, identifier);
    }
  }

  /** One other input. */
  lemma OtherStep(table: seq<Context>, x: Transfer, w: Feeding, n: nat)
    requires AllSound(table) && Interleaved(table, x, w) && n < |w.inputs| && w.which[n].None?
    requires HoldsAt(table, x, w, n)
    ensures HoldsAt(table, x, w, n + 1)
    ensures OtherResult(table, x, w, n)
  {
    var msg, t := w.inputs[n], TableAt(table, w, n);
    assert Undisturbing(t, msg, x.identifier, w.ourTag);
    if Reaches(msg, w.ourTag) {
      if Under(msg, x.identifier, w.ourTag) {
        RefusedStays(t, Scan(msg).header, Scan(msg).piece.value);
      } else {
        OtherHolds(t, RestAt(table, x, w, n), x.identifier, Held(x.identifier, SlotsAt(x, w, n)),
                   Alone(table, x.identifier), Scan(msg).header, Scan(msg).piece.value);
      }
    }
  }

  lemma HoldsInitially(table: seq<Context>, x: Transfer, w: Feeding)
    requires AllSound(table) && Started(table, x.identifier) == [] && Interleaved(table, x, w)
    ensures HoldsAt(table, x, w, 0)
  {
  }

  lemma StepHolds(table: seq<Context>, x: Transfer, w: Feeding, n: nat, next: nat)
    requires AllSound(table) && Readable(x) && Interleaved(table, x, w) && next == n + 1 <= |w.inputs|
    requires HoldsAt(table, x, w, n)
    ensures HoldsAt(table, x, w, next)
  {
    if w.which[n].Some? {
      OwnStep(table, x, w, n);
    } else {
      OtherStep(table, x, w, n);
    }
  }

  lemma {:induction false} AlwaysHolds(table: seq<Context>, x: Transfer, w: Feeding, n: nat)
    requires AllSound(table) && Started(table, x.identifier) == []
    requires Readable(x) && Interleaved(table, x, w) && n <= |w.inputs|
    ensures HoldsAt(table, x, w, n)
  {
    if n == 0 {
      HoldsInitially(table, x, w);
    } else {
      var before: nat := n - 1;
      AlwaysHolds(table, x, w, before);
      assert HoldsAt(table, x, w, n) by {
        StepHolds(table, x, w, before, n);
      }
    }
  }

  // -------------------------------------------------------------- the results

  predicate EveryFragmentComes(x: Transfer, w: Feeding) {
    forall k | 0 <= k < |x.pieces| :: Some(k) in w.which
  }

  predicate LastFragment(w: Feeding, p: nat) {
    |w.which| == |w.inputs| && forall r | p < r < |w.inputs| :: w.which[r].None?
  }

  /** All pieces have come exactly when no fragment is outstanding. */
  lemma FullAtLast(x: Transfer, w: Feeding, p: nat)
    requires Numbered(x, w) && Once(w) && EveryFragmentComes(x, w) && p < |w.inputs|
    ensures var f := SlotsAt(x, w, p + 1); CountSome(f) == |f| <==> LastFragment(w, p)
  {
    var f := SlotsAt(x, w, p + 1);
    if LastFragment(w, p) {
      forall k: nat | k < |f|
        ensures f[k].Some?
      {
        ComesBefore(x, w, p, k);
      }
      AllThere(f);
    } else {
      var r :| p < r < |w.inputs| && w.which[r].Some?;
      SlotFree(x, w, p + 1, r);
      if CountSome(f) == |f| {
        CompleteMeansFull(f);
        assert false;
      }
    }
  }

  lemma ComesBefore(x: Transfer, w: Feeding, p: nat, k: nat)
    requires Numbered(x, w) && EveryFragmentComes(x, w) && LastFragment(w, p) && p < |w.inputs| && k < |x.pieces|
    ensures SlotsAt(x, w, p + 1)[k].Some?
  {
    assert Some(k) in w.which;
    var r :| 0 <= r < |w.which| && w.which[r] == Some(k);
    SlotStays(x, w, r, p + 1, k);
  }

  /**
   Feeding all the fragments of a transfer, each once, in any order and among any inputs that
   do not disturb it: none of them is refused, only the last one hands on a message, exactly
   the transferred one; fragments that come again are refused; every other input has the
   result it would have had without the transfer; and in the end the transfer has left no
   context while those of other identifiers are as they would have been without it. Only for
   the identifier zero can there be others of the same identifier, empty ones that resets
   have left.
   */
  lemma Reassembled(table: seq<Context>, x: Transfer, w: Feeding)
    requires AllSound(table) && Started(table, x.identifier) == []
    requires Readable(x) && Interleaved(table, x, w) && EveryFragmentComes(x, w)
    ensures forall p: nat | p < |w.inputs| ::
              var r := Feed(TableAt(table, w, p), w.inputs[p], w.ourTag);
              if w.which[p].Some? then r.ok && r.out == if LastFragment(w, p) then Some(Concat(x.pieces)) else None
              else OtherResult(table, x, w, p)
    ensures var end, rest := TableAt(table, w, |w.inputs|), RestAt(table, x, w, |w.inputs|);
            && Started(end, x.identifier) == []
            && Part(end, x.identifier, false) == Part(rest, x.identifier, false)
            && (Alone(table, x.identifier) ==>
                  Part(end, x.identifier, true) == [] && Part(end, x.identifier, false) == rest)
  {
    forall p: nat | p < |w.inputs|
      ensures var r := Feed(TableAt(table, w, p), w.inputs[p], w.ourTag);
              if w.which[p].Some? then r.ok && r.out == if LastFragment(w, p) then Some(Concat(x.pieces)) else None
              else OtherResult(table, x, w, p)
    {
      ResultOf(table, x, w, p);
    }
    AlwaysHolds(table, x, w, |w.inputs|);
    EndsFull(x, w);
    if Alone(table, x.identifier) {
      StartedIsPart(TableAt(table, w, |w.inputs|), x.identifier);
      PartAll(RestAt(table, x, w, |w.inputs|), x.identifier);
    }
  }

  lemma ResultOf(table: seq<Context>, x: Transfer, w: Feeding, p: nat)
    requires AllSound(table) && Started(table, x.identifier) == []
    requires Readable(x) && Interleaved(table, x, w) && EveryFragmentComes(x, w) && p < |w.inputs|
    ensures var r := Feed(TableAt(table, w, p), w.inputs[p], w.ourTag);
            if w.which[p].Some? then r.ok && r.out == if LastFragment(w, p) then Some(Concat(x.pieces)) else None
            else OtherResult(table, x, w, p)
  {
    AlwaysHolds(table, x, w, p);
    if w.which[p].Some? {
      OwnStep(table, x, w, p);
      FullAtLast(x, w, p);
      var f := SlotsAt(x, w, p + 1);
      if CountSome(f) == |f| {
        CompleteMeansFull(f);
        JoinFull(f, x.pieces);
      }
    } else {
      OtherStep(table, x, w, p);
    }
  }

  lemma EndsFull(x: Transfer, w: Feeding)
    requires Numbered(x, w) && Once(w) && EveryFragmentComes(x, w) && |x.pieces| >= 1
    ensures var f := SlotsAt(x, w, |w.inputs|); CountSome(f) == |f|
  {
    assert Some(0) in w.which;
    var last := |w.inputs| - 1;
    assert LastFragment(w, last);
    FullAtLast(x, w, last);
  }

  /** A fragment that comes again before the last one has come is refused, so it may come among the others. */
  lemma RepeatIsRefused(table: seq<Context>, x: Transfer, w: Feeding, n: nat, k: nat)
    requires AllSound(table) && Started(table, x.identifier) == []
    requires Readable(x) && Interleaved(table, x, w) && n <= |w.inputs| && k < |x.pieces|
    requires SlotsAt(x, w, n)[k].Some? && CountSome(SlotsAt(x, w, n)) < |x.pieces|
    ensures RefusedAt(TableAt(table, w, n), HeaderOf(x, k), x.pieces[k], x.identifier)
    ensures Undisturbing(TableAt(table, w, n), FragmentOf(x, k), x.identifier, w.ourTag)
  {
    AlwaysHolds(table, x, w, n);
    RepeatRefused(TableAt(table, w, n), x, SlotsAt(x, w, n), k);
    FragmentScanned(x, k);
  }

  lemma RepeatRefused(t: seq<Context>, x: Transfer, f: seq<Option<string>>, k: nat)
    requires AllSound(t) && |f| == |x.pieces| && k < |f| && f[k].Some? && CountSome(f) < |f|
    requires Started(t, x.identifier) == Held(x.identifier, f)
    requires Held(x.identifier, f) != [] ==> Lookup(t, x.identifier) == Some(Held(x.identifier, f)[0])
    ensures RefusedAt(t, HeaderOf(x, k), x.pieces[k], x.identifier)
  {
    SomeThere(f, k);
  }

  lemma FragmentScanned(x: Transfer, k: nat)
    requires Readable(x) && k < |x.pieces|
    ensures Scan(FragmentOf(x, k)).header == HeaderOf(x, k) && Scan(FragmentOf(x, k)).piece == Some(x.pieces[k])
  {
    assert x.pieces[k] in x.pieces;
    FormatRead(HeaderOf(x, k), x.pieces[k]);
  }

  lemma {:induction false} SomeThere(f: seq<Option<string>>, k: nat)
    requires k < |f| && f[k].Some?
    ensures CountSome(f) > 0
  {
    if k > 0 {
      SomeThere(f[1..], k - 1);
    }
  }

  // --------------------------------------------------------------- end to end

  /** The message and the sizes that otrng_fragment_message cuts without trouble. */
  predicate Cuttable(message: string, maxSize: int) {
    FRAGMENT_HEADER_LEN < maxSize < 0x8000_0000 && 0 < |message| <= (maxSize - FRAGMENT_HEADER_LEN) * 65535
  }

  lemma TotalPositive(message: string, maxSize: int)
    requires Cuttable(message, maxSize)
    ensures Limit(maxSize) == maxSize - FRAGMENT_HEADER_LEN && |message| < SIZE_T
    ensures LimitDefined(maxSize) && 1 <= Total(|message|, Limit(maxSize)) <= 65535
  {
    SmallInt(maxSize - FRAGMENT_HEADER_LEN);
    TotalInRange(|message|, maxSize - FRAGMENT_HEADER_LEN);
  }

  /** The transfer that otrng_fragment_message makes of a message. */
  function TransferOf(message: string, maxSize: int, identifier: nat, our: nat, their: nat): Transfer
    requires Cuttable(message, maxSize)
  {
    TotalPositive(message, maxSize);
    Transfer(identifier, our, their, Pieces(message, Limit(maxSize), Total(|message|, Limit(maxSize))))
  }

  lemma PiecesReadable(pieces: seq<string>, message: string, limit: nat)
    requires CommaFree(message) && forall p | p in pieces :: PieceOf(p, message, limit)
    ensures forall p | p in pieces :: p != "" && CommaFree(p)
  {
  }

  /** Cutting and putting together are inverse: for a non-empty message without commas, a
      maximal size above the header's and at most 65535 pieces, the transfer is readable and
      the concatenation of its pieces is the message. */
  lemma CutIsReadable(message: string, maxSize: int, identifier: nat, our: nat, their: nat)
    requires Cuttable(message, maxSize) && ',' !in message
    requires identifier < 0x1_0000_0000 && our < 0x1_0000_0000 && their < 0x1_0000_0000
    ensures var x := TransferOf(message, maxSize, identifier, our, their); Readable(x) && Concat(x.pieces) == message
  {
    TotalPositive(message, maxSize);
    FragmentsFit(message, maxSize, identifier, our, their);
    PiecesReadable(TransferOf(message, maxSize, identifier, our, their).pieces, message, Limit(maxSize));
  }

  lemma NumberedPieces(x: Transfer, fs: seq<string>, maxSize: int)
    requires fs == Fragments(x.pieces, x.identifier, x.sender, x.receiver, 0, |x.pieces|)
    requires forall f | f in fs :: |f| <= maxSize
    ensures |fs| == |x.pieces| && forall k | 0 <= k < |fs| :: fs[k] == FragmentOf(x, k) && |fs[k]| <= maxSize
  {
    forall k | 0 <= k < |fs|
      ensures |fs[k]| <= maxSize
    {
      assert fs[k] in fs;
    }
  }

  lemma CutOf(message: string, limit: nat, x: Transfer)
    requires 0 < limit < 0x8000_0000 && x.pieces == Pieces(message, limit, |x.pieces|)
    ensures Cut(message, limit, Route(x.identifier, x.sender, x.receiver), 0, |x.pieces|)
            == Some(Fragments(x.pieces, x.identifier, x.sender, x.receiver, 0, |x.pieces|))
  {
    CutIsFragments(message, limit, Route(x.identifier, x.sender, x.receiver), 0, |x.pieces|);
  }

  /** What otrng_fragment_message sends are the fragments of the transfer, and none exceeds the maximal size. */
  lemma CutFragments(message: string, maxSize: int, identifier: nat, our: nat, their: nat)
    returns (x: Transfer, fs: seq<string>)
    requires Cuttable(message, maxSize)
    ensures x == TransferOf(message, maxSize, identifier, our, their)
    ensures LimitDefined(maxSize) && |x.pieces| == Total(|message|, Limit(maxSize)) <= 65535
    ensures Cut(message, Limit(maxSize), Route(identifier, our, their), 0, |x.pieces|) == Some(fs)
    ensures |fs| == |x.pieces| && forall k | 0 <= k < |fs| :: fs[k] == FragmentOf(x, k) && |fs[k]| <= maxSize
  {
    TotalPositive(message, maxSize);
    FragmentsFit(message, maxSize, identifier, our, their);
    x := TransferOf(message, maxSize, identifier, our, their);
    fs := Fragments(x.pieces, identifier, our, their, 0, |x.pieces|);
    CutOf(message, Limit(maxSize), x);
    NumberedPieces(x, fs, maxSize);
  }

  /** The round trip: the fragments of a message, however they arrive, give the message at the
      last one and nothing before. */
  lemma FragmentRoundTrip(table: seq<Context>, message: string, maxSize: int, identifier: nat, our: nat, their: nat,
                          w: Feeding, p: nat)
    requires Cuttable(message, maxSize) && ',' !in message && AllSound(table) && Started(table, identifier) == []
    requires identifier < 0x1_0000_0000 && our < 0x1_0000_0000 && their < 0x1_0000_0000
    requires var x := TransferOf(message, maxSize, identifier, our, their);
             Interleaved(table, x, w) && EveryFragmentComes(x, w)
    requires p < |w.inputs| && w.which[p].Some?
    ensures Feed(TableAt(table, w, p), w.inputs[p], w.ourTag).out == if LastFragment(w, p) then Some(message) else None
  {
    CutIsReadable(message, maxSize, identifier, our, their);
    ResultOf(table, TransferOf(message, maxSize, identifier, our, their), w, p);
  }

  /** Two transfers begun on the empty table, one of them with identifier zero. */
  lemma TwoBegun(a: string, b: string)
    ensures var begun := FeedTable([], Header(7, 1, 1, 1, 2), a).table;
            && AllSound(begun)
            && FeedTable(begun, Header(0, 1, 1, 1, 2), b).table
               == [Context(7, 2, 1, |a|, [Some(a), None]), Context(0, 2, 1, |b|, [Some(b), None])]
  {
    var early := Context(7, 2, 1, |a|, [Some(a), None]);
    OneOfTwo(a);
    OneOfTwo(b);
    BeginsWith(7, a);
    BeginsWith(0, b);
    FeedAbsent([], Header(7, 1, 1, 1, 2), a);
    assert [] + [early] == [early];
    FeedAbsent([early], Header(0, 1, 1, 1, 2), b);
  }

  lemma BeginsWith(identifier: nat, piece: string)
    ensures Place(NewContext(identifier), Header(identifier, 1, 1, 1, 2), piece)
            == Stored(Context(identifier, 2, 1, |piece|, [Some(piece), None]))
  {
    assert Empty(2) == [None, None];
    assert Empty(2)[0 := Some(piece)] == [Some(piece), None];
  }

  /** For identifier zero an invalid index of another message can break the transfer: from the empty table,
      after the first of two fragments of each, the reset context takes the identifier zero and
      stands first, and the last fragment of the transfer hands on nothing. */
  lemma ZeroIdentifierDisturbed(a: string, b: string)
    ensures var begun := FeedTable([], Header(7, 1, 1, 1, 2), a).table;
            && AllSound(begun)
            && var both := FeedTable(begun, Header(0, 1, 1, 1, 2), b).table;
            && AllSound(both)
            && var table := FeedTable(both, Header(7, 1, 1, 0, 2), a).table;
            && AllSound(table)
            && FeedTable(table, Header(0, 1, 1, 2, 2), a).out == None
  {
    var early := Context(7, 2, 1, |a|, [Some(a), None]);
    var mine := Context(0, 2, 1, |b|, [Some(b), None]);
    OneOfTwo(a);
    OneOfTwo(b);
    TwoBegun(a, b);
    assert [early, mine] == [] + [early] + [mine];
    FeedBetween([], early, [mine], Header(7, 1, 1, 0, 2), a);
    assert Empty(2)[1] == None;
    FeedBetween([], NewContext(0), [mine], Header(0, 1, 1, 2, 2), a);
    assert [NewContext(0), mine] == [] + [NewContext(0)] + [mine];
  }

  lemma OneOfTwo(a: string)
    ensures CountSome([Some(a), None]) == 1 && Join([Some(a), None]) == a
  {
    var f: seq<Option<string>> := [Some(a), None];
    assert f[1..] == [None] && f[1..][1..] == [];
    assert CountSome(f[1..]) == 0 && Join(f[1..]) == "";
  }
}
