/**
 The table of partly received messages, as a function of the table: what
 otrng_unfragment_message does with one incoming string.
 */
module Reassembly {
  import opened Prelude
  import opened FragmentFormat

  /** One message being put together. Without fragments the source's array is null. */
  datatype Context = Context(identifier: nat, total: nat, count: nat, len: nat, fragments: seq<Option<string>>)

  function NewContext(identifier: nat): Context { Context(identifier, 0, 0, 0, []) }

  function CountSome(f: seq<Option<string>>): (n: nat)
    ensures n <= |f|
  {
    if f == [] then 0 else CountSome(f[1..]) + if f[0].Some? then 1 else 0
  }

  /** The fragments one after the other, missing ones as nothing. */
  function Join(f: seq<Option<string>>): string {
    if f == [] then "" else (if f[0].Some? then f[0].value else "") + Join(f[1..])
  }

  /** The array has the announced size, and counters and buffer length match what is in it. */
  predicate Sound(c: Context) {
    c.total == |c.fragments| && c.count == CountSome(c.fragments) && c.len == |Join(c.fragments)|
  }

  lemma {:induction false} FillSlot(f: seq<Option<string>>, i: nat, piece: string)
    requires i < |f| && f[i].None?
    ensures CountSome(f[i := Some(piece)]) == CountSome(f) + 1
    ensures |Join(f[i := Some(piece)])| == |Join(f)| + |piece|
  {
    if i > 0 {
      FillSlot(f[1..], i - 1, piece);
      assert f[i := Some(piece)][1..] == f[1..][i - 1 := Some(piece)];
    } else {
      assert f[0 := Some(piece)][1..] == f[1..];
    }
  }

  function Empty(t: nat): (f: seq<Option<string>>)
    ensures |f| == t && CountSome(f) == 0 && Join(f) == ""
    ensures forall k | 0 <= k < t :: f[k] == None
  {
    if t == 0 then [] else
      var f := [None] + Empty(t - 1);
      assert f[1..] == Empty(t - 1);
      f
  }

  datatype Placed = Refused | Stored(c: Context) | Complete(message: string)

  predicate OutOfRange(h: Header) { h.i == 0 || h.t == 0 || h.i > h.t }

  /** A fragment meets the context of its identifier. An index out of range resets the context,
      identifier included; a different total or a repeated index is refused. */
  function Place(c: Context, h: Header, piece: string): (p: Placed)
    requires Sound(c)
    ensures p.Stored? ==> Sound(p.c)
  {
    if OutOfRange(h) then
      Stored(NewContext(0))
    else if c.total != 0 && c.total != h.t then
      Refused
    else
      var f := if c.total == 0 then Empty(h.t) else c.fragments;
      if f[h.i - 1].Some? then
        Refused
      else
        FillSlot(f, h.i - 1, piece);
        var c' := Context(c.identifier, h.t, c.count + 1, c.len + |piece|, f[h.i - 1 := Some(piece)]);
        if c'.count == h.t then Complete(Join(c'.fragments)) else Stored(c')
  }

  /** What becomes of the context. */
  function Kept(c: Context, p: Placed): seq<Context> {
    match p
    case Refused => [c]
    case Stored(c') => [c']
    case Complete(_) => []
  }

  predicate AllSound(table: seq<Context>) {
    forall c | c in table :: Sound(c)
  }

  predicate Absent(table: seq<Context>, identifier: nat) {
    forall c | c in table :: c.identifier != identifier
  }

  /** Index of the first context with the identifier, or the length of the table. */
  function Find(table: seq<Context>, identifier: nat): (n: nat)
    ensures n <= |table| && Absent(table[..n], identifier)
    ensures n < |table| ==> table[n].identifier == identifier
  {
    if table == [] || table[0].identifier == identifier then 0
    else
      var n := 1 + Find(table[1..], identifier);
      assert table[..n] == [table[0]] + table[1..][..n - 1];
      n
  }

  /** New table, whether the call succeeded, and the message handed on. */
  datatype Result = Result(table: seq<Context>, ok: bool, out: Option<string>)

  /** Whether a string reaches the table at all. */
  predicate Reaches(msg: string, ourTag: nat) {
    && PREFIX <= msg
    && (Scan(msg).header.receiver == ourTag || Scan(msg).header.receiver == 0)
    && Scan(msg).piece.Some?
  }

  function FeedTable(table: seq<Context>, h: Header, piece: string): Result
    requires AllSound(table)
  {
    var n := Find(table, h.identifier);
    var c := if n < |table| then table[n] else NewContext(h.identifier);
    var p := Place(c, h, piece);
    Result(table[..n] + Kept(c, p) + (if n < |table| then table[n + 1..] else []),
           !p.Refused?, if p.Complete? then Some(p.message) else None)
  }

  /** otrng_unfragment_message. */
  function Feed(table: seq<Context>, msg: string, ourTag: nat): Result
    requires AllSound(table)
  {
    if !(PREFIX <= msg) then Result(table, true, Some(msg))
    else
      var s := Scan(msg);
      if ourTag != s.header.receiver && s.header.receiver != 0 then Result(table, true, None)
      else if s.piece.None? then Result(table, false, None)
      else FeedTable(table, s.header, s.piece.value)
  }

  /** Every string keeps the table sound, so the joined message always fits its buffer. */
  lemma FeedKeepsSound(table: seq<Context>, msg: string, ourTag: nat)
    requires AllSound(table)
    ensures AllSound(Feed(table, msg, ourTag).table)
  {
  }

  /** When the counter has reached the size of the array, no fragment is missing. */
  lemma {:induction false} CompleteMeansFull(f: seq<Option<string>>)
    requires CountSome(f) == |f|
    ensures forall k | 0 <= k < |f| :: f[k].Some?
  {
    if f != [] {
      CompleteMeansFull(f[1..]);
    }
  }

  // ------------------------------------------------------ one identifier, and the rest

  /** What does not begin like a fragment is handed on as it is, and no context changes. */
  lemma OtherTextPasses(table: seq<Context>, msg: string, ourTag: nat)
    requires AllSound(table) && !("?OTR|" <= msg)
    ensures Feed(table, msg, ourTag) == Result(table, true, Some(msg))
  {
  }

  lemma Fed(table: seq<Context>, msg: string, s: Scanned, ourTag: nat)
    requires AllSound(table) && PREFIX <= msg && Scan(msg) == s
    ensures Feed(table, msg, ourTag)
            == if s.header.receiver != ourTag && s.header.receiver != 0 then Result(table, true, None)
               else if s.piece.None? then Result(table, false, None)
               else FeedTable(table, s.header, s.piece.value)
  {
  }

  /** A printed fragment for another instance is ignored, one without a piece is refused, and one for this instance or
      for any is placed, under its identifier, as the number it says. */
  lemma PrintedFed(table: seq<Context>, h: Header, piece: string, ourTag: nat)
    requires AllSound(table) && HeaderFits(h) && ',' !in piece
    ensures Feed(table, Format(h, piece), ourTag)
            == if h.receiver != ourTag && h.receiver != 0 then Result(table, true, None)
               else if piece == "" then Result(table, false, None)
               else FeedTable(table, h, piece)
  {
    FormatRead(h, piece);
    Fed(table, Format(h, piece), Scanned(h, if piece == "" then None else Some(piece)), ourTag);
  }

  /** A fragment that announces another total than the first of its identifier is refused and changes nothing. */
  lemma OtherTotalRefused(table: seq<Context>, h: Header, piece: string)
    requires AllSound(table) && !OutOfRange(h) && Lookup(table, h.identifier).Some?
    requires Lookup(table, h.identifier).value.total != 0 && Lookup(table, h.identifier).value.total != h.t
    ensures FeedTable(table, h, piece) == Result(table, false, None)
  {
    var n := Find(table, h.identifier);
    assert table[..n] + [table[n]] + table[n + 1..] == table;
  }

  /** The contexts with the identifier (same) or without it. */
  function Part(table: seq<Context>, identifier: nat, same: bool): (p: seq<Context>)
    ensures forall c | c in p :: c in table && ((c.identifier == identifier) == same)
  {
    if table == [] then []
    else if (table[0].identifier == identifier) == same then [table[0]] + Part(table[1..], identifier, same)
    else Part(table[1..], identifier, same)
  }

  lemma {:induction false} PartConcat(a: seq<Context>, b: seq<Context>, identifier: nat, same: bool)
    ensures Part(a + b, identifier, same) == Part(a, identifier, same) + Part(b, identifier, same)
  {
    if a == [] {
      assert a + b == b;
    } else {
      assert (a + b)[1..] == a[1..] + b;
      PartConcat(a[1..], b, identifier, same);
    }
  }

  lemma PartSplit(a: seq<Context>, c: seq<Context>, b: seq<Context>, identifier: nat, same: bool)
    ensures Part(a + c + b, identifier, same)
            == Part(a, identifier, same) + Part(c, identifier, same) + Part(b, identifier, same)
  {
    PartConcat(a + c, b, identifier, same);
    PartConcat(a, c, identifier, same);
  }

  lemma {:induction false} PartAll(table: seq<Context>, identifier: nat)
    requires Absent(table, identifier)
    ensures Part(table, identifier, true) == [] && Part(table, identifier, false) == table
  {
    if table != [] {
      PartAll(table[1..], identifier);
    }
  }

  lemma {:induction false} FindSkips(a: seq<Context>, b: seq<Context>, identifier: nat)
    requires Absent(a, identifier)
    ensures Find(a + b, identifier) == |a| + Find(b, identifier)
  {
    if a == [] {
      assert a + b == b;
    } else {
      assert (a + b)[1..] == a[1..] + b;
      FindSkips(a[1..], b, identifier);
    }
  }

  /** Feeding a table in which the context stands between a and b. */
  lemma FeedBetween(a: seq<Context>, c: Context, b: seq<Context>, h: Header, piece: string)
    requires AllSound(a + [c] + b) && Sound(c) && Absent(a, h.identifier) && c.identifier == h.identifier
    ensures var p := Place(c, h, piece);
            FeedTable(a + [c] + b, h, piece)
            == Result(a + Kept(c, p) + b, !p.Refused?, if p.Complete? then Some(p.message) else None)
  {
    var table := a + [c] + b;
    assert table == a + ([c] + b);
    FindSkips(a, [c] + b, h.identifier);
    assert table[..|a|] == a && table[|a| + 1..] == b;
  }

  /** Feeding a table without the context. */
  lemma FeedAbsent(a: seq<Context>, h: Header, piece: string)
    requires AllSound(a) && Absent(a, h.identifier)
    ensures var c := NewContext(h.identifier);
            var p := Place(c, h, piece);
            FeedTable(a, h, piece)
            == Result(a + Kept(c, p), !p.Refused?, if p.Complete? then Some(p.message) else None)
  {
    assert a + [] == a;
    FindSkips(a, [], h.identifier);
    assert a[..|a|] == a && a + Kept(NewContext(h.identifier), Place(NewContext(h.identifier), h, piece)) + []
        == a + Kept(NewContext(h.identifier), Place(NewContext(h.identifier), h, piece));
  }

  // ------------------------------------------------- what is under one identifier

  /** The first context with the identifier. */
  function Lookup(table: seq<Context>, identifier: nat): Option<Context> {
    var n := Find(table, identifier);
    if n < |table| then Some(table[n]) else None
  }

  lemma LookupConcat(a: seq<Context>, b: seq<Context>, identifier: nat)
    ensures Lookup(a + b, identifier)
            == if Lookup(a, identifier).Some? then Lookup(a, identifier) else Lookup(b, identifier)
  {
    var n := Find(a, identifier);
    if n < |a| {
      assert a + b == a[..n] + (a[n..] + b) && (a[n..] + b)[0].identifier == identifier;
      FindSkips(a[..n], a[n..] + b, identifier);
    } else {
      assert a[..n] == a;
      FindSkips(a, b, identifier);
    }
  }

  lemma LookupOne(c: Context, identifier: nat)
    ensures Lookup([c], identifier) == if c.identifier == identifier then Some(c) else None
  {
    assert [c][1..] == [];
  }

  /** The contexts of the identifier that hold something. A reset context holds nothing, and has
      the identifier zero. */
  function Started(table: seq<Context>, identifier: nat): (s: seq<Context>)
    ensures forall c :: c in s <==> c in table && c.identifier == identifier && c != NewContext(identifier)
  {
    if table == [] then [] else
      (if table[0].identifier == identifier && table[0] != NewContext(identifier) then [table[0]] else [])
      + Started(table[1..], identifier)
  }

  lemma {:induction false} StartedConcat(a: seq<Context>, b: seq<Context>, identifier: nat)
    ensures Started(a + b, identifier) == Started(a, identifier) + Started(b, identifier)
  {
    if a == [] {
      assert a + b == b;
    } else {
      assert (a + b)[1..] == a[1..] + b;
      StartedConcat(a[1..], b, identifier);
    }
  }

  lemma StartedSplit(a: seq<Context>, c: seq<Context>, b: seq<Context>, identifier: nat)
    ensures Started(a + c + b, identifier)
            == Started(a, identifier) + Started(c, identifier) + Started(b, identifier)
  {
    StartedConcat(a + c, b, identifier);
    StartedConcat(a, c, identifier);
  }

  lemma {:induction false} StartedAbsent(table: seq<Context>, identifier: nat)
    requires Absent(table, identifier)
    ensures Started(table, identifier) == []
  {
    if table != [] {
      StartedAbsent(table[1..], identifier);
    }
  }

  lemma StartedOne(c: Context, identifier: nat)
    ensures Started([c], identifier)
            == if c.identifier == identifier && c != NewContext(identifier) then [c] else []
  {
    assert [c][1..] == [];
  }

  /** The table around the context a fragment meets, and what it makes of that context. */
  lemma FeedAround(table: seq<Context>, h: Header, piece: string)
    returns (a: seq<Context>, met: seq<Context>, c: Context, b: seq<Context>)
    requires AllSound(table)
    ensures table == a + met + b && Absent(a, h.identifier) && |a| == Find(table, h.identifier)
    ensures Sound(c) && c.identifier == h.identifier
    ensures Lookup(table, h.identifier) == if met == [] then None else Some(c)
    ensures met == [c] || (met == [] && b == [] && c == NewContext(h.identifier))
    ensures var p := Place(c, h, piece);
            FeedTable(table, h, piece)
            == Result(a + Kept(c, p) + b, !p.Refused?, if p.Complete? then Some(p.message) else None)
  {
    var n := Find(table, h.identifier);
    a := table[..n];
    if n < |table| {
      c, b := table[n], table[n + 1..];
      met := [c];
      assert table == a + [c] + b;
    } else {
      c, b, met := NewContext(h.identifier), [], [];
      assert table == a + [] + [];
    }
  }

  // ------------------------------------------------------------ other fragments

  /** A fragment of another message makes the identifier zero find something else: its index is out
      of range, and the context that this resets stands before the one that was found. */
  predicate Disturbs(table: seq<Context>, h: Header, identifier: nat) {
    && identifier == 0 && OutOfRange(h)
    && Find(table, h.identifier) < Find(table, 0)
  }

  lemma LookupAround(a: seq<Context>, m: seq<Context>, b: seq<Context>, identifier: nat)
    ensures Lookup(a + m + b, identifier)
            == if Lookup(a, identifier).Some? then Lookup(a, identifier)
               else if Lookup(m, identifier).Some? then Lookup(m, identifier) else Lookup(b, identifier)
  {
    LookupConcat(a + m, b, identifier);
    LookupConcat(a, m, identifier);
  }

  lemma FoundInFront(a: seq<Context>, m: seq<Context>, b: seq<Context>, identifier: nat)
    requires Lookup(m, identifier).None?
    ensures Lookup(a, identifier).Some? <==> Find(a + m + b, identifier) < |a|
  {
    var n := Find(a, identifier);
    if n < |a| {
      assert a + m + b == a[..n] + (a[n..] + m + b) && (a[n..] + m + b)[0].identifier == identifier;
      FindSkips(a[..n], a[n..] + m + b, identifier);
    } else {
      assert a[..n] == a && a + m + b == a + (m + b);
      FindSkips(a, m + b, identifier);
    }
  }

  /** Whatever a fragment of another identifier makes of its context, a reset to zero aside, is not
      found under this identifier. */
  lemma KeptLookup(c: Context, h: Header, piece: string, identifier: nat)
    requires Sound(c) && c.identifier == h.identifier != identifier
    ensures Lookup(Kept(c, Place(c, h, piece)), identifier)
            == if OutOfRange(h) && identifier == 0 then Some(NewContext(0)) else None
    ensures Started(Kept(c, Place(c, h, piece)), identifier) == []
  {
    var kept := Kept(c, Place(c, h, piece));
    if kept != [] {
      assert kept == [kept[0]];
      LookupOne(kept[0], identifier);
      StartedOne(kept[0], identifier);
    }
  }

  /** Exactly which fragments of other messages disturb. Whatever was found under the identifier is
      still found, if and only if the fragment does not disturb or what was found is an empty
      context just like the one that takes its place. */
  lemma DisturbsIff(table: seq<Context>, h: Header, piece: string, identifier: nat)
    requires AllSound(table) && h.identifier != identifier && Lookup(table, identifier).Some?
    ensures Lookup(FeedTable(table, h, piece).table, identifier) == Lookup(table, identifier)
        <==> !Disturbs(table, h, identifier) || Lookup(table, identifier).value == NewContext(0)
    ensures Disturbs(table, h, identifier) ==>
              Lookup(FeedTable(table, h, piece).table, identifier) == Some(NewContext(0))
  {
    var a, met, c, b := FeedAround(table, h, piece);
    var kept := Kept(c, Place(c, h, piece));
    LookupOne(c, identifier);
    KeptLookup(c, h, piece, identifier);
    LookupAround(a, met, b, identifier);
    LookupAround(a, kept, b, identifier);
    FoundInFront(a, met, b, identifier);
  }

  /** A fragment that leaves alone what has been started under an identifier. */
  predicate Foreign(table: seq<Context>, h: Header, identifier: nat) {
    h.identifier != identifier && (Started(table, identifier) == [] || !Disturbs(table, h, identifier))
  }

  /** What is found under the identifier when nothing has been started is as good as nothing. */
  lemma IdleLookup(table: seq<Context>, identifier: nat)
    requires Started(table, identifier) == []
    ensures Lookup(table, identifier) in {None, Some(NewContext(identifier))}
  {
    var n := Find(table, identifier);
    if n < |table| {
      assert table[n] in table;
    }
  }

  /** A foreign fragment leaves what has been started under the identifier where it is found. */
  lemma ForeignKeepsStarted(table: seq<Context>, h: Header, piece: string, identifier: nat)
    requires AllSound(table) && Foreign(table, h, identifier)
    ensures var r := FeedTable(table, h, piece).table;
            && Started(r, identifier) == Started(table, identifier)
            && (Started(table, identifier) != [] && Lookup(table, identifier).Some? ==>
                  Lookup(r, identifier) == Lookup(table, identifier))
  {
    var a, met, c, b := FeedAround(table, h, piece);
    KeptLookup(c, h, piece, identifier);
    StartedOne(c, identifier);
    StartedSplit(a, met, b, identifier);
    StartedSplit(a, Kept(c, Place(c, h, piece)), b, identifier);
    if Started(table, identifier) != [] && Lookup(table, identifier).Some? {
      DisturbsIff(table, h, piece, identifier);
    }
  }

  /** The other contexts, and the result, come out as when the table held nothing else. */
  lemma ForeignIsIndependent(table: seq<Context>, h: Header, piece: string, identifier: nat)
    requires AllSound(table) && h.identifier != identifier
    ensures var r, alone := FeedTable(table, h, piece), FeedTable(Part(table, identifier, false), h, piece);
            && Part(r.table, identifier, false) == Part(alone.table, identifier, false)
            && r.ok == alone.ok && r.out == alone.out
  {
    var a, met, c, b := FeedAround(table, h, piece);
    var kept := Kept(c, Place(c, h, piece));
    var a', b' := Part(a, identifier, false), Part(b, identifier, false);
    PartSplit(a, met, b, identifier, false);
    PartSplit(a, kept, b, identifier, false);
    PartSplit(a', kept, b', identifier, false);
    PartTwice(a, identifier);
    PartTwice(b, identifier);
    if met == [] {
      FeedAbsent(a', h, piece);
      assert a' + [] + [] == a' && a' + kept + [] == a' + kept;
    } else {
      PartAll([c], identifier);
      FeedBetween(a', c, b', h, piece);
    }
  }

  lemma PartTwice(table: seq<Context>, identifier: nat)
    ensures Part(Part(table, identifier, false), identifier, false) == Part(table, identifier, false)
  {
    PartAll(Part(table, identifier, false), identifier);
  }

  /** Every fragment of another identifier leaves a transfer alone whose identifier is not zero; and one with an index
      in range leaves any alone. */
  lemma MostAreForeign(table: seq<Context>, h: Header, identifier: nat)
    requires h.identifier != identifier && (identifier != 0 || 1 <= h.i <= h.t)
    ensures Foreign(table, h, identifier)
  {
  }

  /** No empty context has the identifier. */
  predicate NoneIdle(table: seq<Context>, identifier: nat) { NewContext(identifier) !in table }

  lemma KeptIsNotIdle(c: Context, h: Header, piece: string, identifier: nat)
    requires Sound(c) && c.identifier == h.identifier && identifier != 0
    ensures Place(c, h, piece).Refused? ==> c != NewContext(h.identifier)
    ensures forall k | k in Kept(c, Place(c, h, piece)) :: k == c || k != NewContext(identifier)
    ensures h.identifier != identifier ==> forall k | k in Kept(c, Place(c, h, piece)) :: k.identifier != identifier
  {
  }

  /** Only a reset puts an empty context into the table, and only under zero. */
  lemma NoneIdleKept(table: seq<Context>, h: Header, piece: string, identifier: nat)
    requires AllSound(table) && NoneIdle(table, identifier) && identifier != 0
    ensures NoneIdle(FeedTable(table, h, piece).table, identifier)
    ensures Absent(table, identifier) && h.identifier != identifier ==>
              Absent(FeedTable(table, h, piece).table, identifier)
  {
    var a, met, c, b := FeedAround(table, h, piece);
    KeptIsNotIdle(c, h, piece, identifier);
    if met != [] {
      assert c in met && c in table;
    }
  }

  lemma {:induction false} StartedIsPart(table: seq<Context>, identifier: nat)
    requires NoneIdle(table, identifier)
    ensures Started(table, identifier) == Part(table, identifier, true)
  {
    if table != [] {
      assert table[0] in table;
      StartedIsPart(table[1..], identifier);
    }
  }

  /** A fragment under the identifier that its context refuses: it came before, or names another total. */
  predicate RefusedAt(table: seq<Context>, h: Header, piece: string, identifier: nat)
    requires AllSound(table)
  {
    h.identifier == identifier && Find(table, identifier) < |table|
    && Place(table[Find(table, identifier)], h, piece).Refused?
  }

  lemma RefusedStays(table: seq<Context>, h: Header, piece: string)
    requires AllSound(table) && RefusedAt(table, h, piece, h.identifier)
    ensures FeedTable(table, h, piece) == Result(table, false, None)
  {
    var a, met, c, b := FeedAround(table, h, piece);
  }

  // -------------------------------------------------------------- own fragments

  /** A fragment of the identifier itself meets what is found under it, or a new context, and
      leaves the rest of the table as it is. */
  lemma OwnFragment(table: seq<Context>, h: Header, piece: string, c: Context)
    requires AllSound(table) && c.identifier == h.identifier && !OutOfRange(h)
    requires || (Started(table, h.identifier) == [c] && Lookup(table, h.identifier) == Some(c))
             || (Started(table, h.identifier) == [] && c == NewContext(h.identifier))
    ensures Sound(c)
    ensures var r, p := FeedTable(table, h, piece), Place(c, h, piece);
            && Part(r.table, h.identifier, false) == Part(table, h.identifier, false)
            && Started(r.table, h.identifier) == Started(Kept(c, p), h.identifier)
            && (p.Stored? ==> Lookup(r.table, h.identifier) == Some(p.c))
            && r.ok == !p.Refused? && r.out == if p.Complete? then Some(p.message) else None
  {
    var a, met, c', b := FeedAround(table, h, piece);
    if Started(table, h.identifier) == [] {
      IdleLookup(table, h.identifier);
    }
    assert c' == c;
    OwnAround(a, met, c, b, h.identifier);
    KeptUnder(c, h, piece);
    OwnResult(a, Kept(c, Place(c, h, piece)), met, b, h.identifier);
  }

  lemma KeptUnder(c: Context, h: Header, piece: string)
    requires Sound(c) && c.identifier == h.identifier && !OutOfRange(h)
    ensures var kept := Kept(c, Place(c, h, piece)); |kept| <= 1 && forall k | k in kept :: k.identifier == h.identifier
  {
  }

  /** Nothing else has been started around the context. */
  lemma OwnAround(a: seq<Context>, met: seq<Context>, c: Context, b: seq<Context>, identifier: nat)
    requires Absent(a, identifier) && c.identifier == identifier
    requires met == [c] || (met == [] && b == [])
    requires Started(a + met + b, identifier) in {[], [c]}
    requires Started(a + met + b, identifier) == [] ==> c == NewContext(identifier)
    requires Started(a + met + b, identifier) == [c] ==> met == [c] && c != NewContext(identifier)
    ensures Started(a, identifier) == [] && Started(b, identifier) == []
  {
    StartedAbsent(a, identifier);
    StartedSplit(a, met, b, identifier);
    StartedOne(c, identifier);
  }

  lemma OwnResult(a: seq<Context>, kept: seq<Context>, met: seq<Context>, b: seq<Context>, identifier: nat)
    requires Absent(a, identifier) && Started(b, identifier) == []
    requires |kept| <= 1 && |met| <= 1
    requires (forall k | k in kept :: k.identifier == identifier) && forall m | m in met :: m.identifier == identifier
    ensures Part(a + kept + b, identifier, false) == Part(a + met + b, identifier, false)
    ensures Started(a + kept + b, identifier) == Started(kept, identifier)
    ensures kept != [] ==> Lookup(a + kept + b, identifier) == Some(kept[0])
  {
    PartSplit(a, kept, b, identifier, false);
    PartSplit(a, met, b, identifier, false);
    OwnPart(kept, identifier);
    OwnPart(met, identifier);
    StartedAbsent(a, identifier);
    StartedSplit(a, kept, b, identifier);
    LookupAround(a, kept, b, identifier);
    if kept != [] {
      assert kept == [kept[0]] && kept[0] in kept;
      LookupOne(kept[0], identifier);
    }
  }

  lemma OwnPart(kept: seq<Context>, identifier: nat)
    requires |kept| <= 1 && forall k | k in kept :: k.identifier == identifier
    ensures Part(kept, identifier, true) == kept && Part(kept, identifier, false) == []
  {
    if kept != [] {
      assert kept[0] in kept && kept[1..] == [];
    }
  }
}
