/**
 The reassembly table on the heap: contexts are objects with an array of fragments that is
 filled in place, and the table is a list of them that grows and shrinks. Its one operation is
 proved to compute Feed of module Reassembly.
 */
module FragmentMachine {
  import opened Prelude
  import opened FragmentFormat
  import R = Reassembly

  lemma JoinedSoFar(a: string, b: string, c: string)
    ensures a + (b + c) == a + b + c
  {
  }

  /** otrng_stpcpy: the characters at the cursor; what follows stays. */
  method CopyString(buffer: array<char>, end: nat, s: string) returns (end': nat)
    requires end + |s| <= buffer.Length
    modifies buffer
    ensures end' == end + |s| && buffer[..end'] == old(buffer[..end]) + s
    ensures forall k | end' <= k < buffer.Length :: buffer[k] == old(buffer[k])
  {
    forall k | 0 <= k < |s| {
      buffer[end + k] := s[k];
    }
    end' := end + |s|;
  }

  class FragmentContext {
    var identifier: nat
    var total: nat
    var count: nat
    var totalMessageLen: nat
    var fragments: array?<Option<string>>

    ghost function Slots(): seq<Option<string>>
      reads this, fragments
    {
      if fragments == null then [] else fragments[..]
    }

    ghost function View(): R.Context
      reads this, fragments
    {
      R.Context(identifier, total, count, totalMessageLen, Slots())
    }

    ghost predicate Valid()
      reads this, fragments
    {
      R.Sound(View()) && (fragments == null <==> total == 0)
    }

    constructor (id: nat)
      ensures View() == R.NewContext(id) && Valid() && fragments == null
    {
      identifier, total, count, totalMessageLen, fragments := id, 0, 0, 0, null;
      new;
      assert Slots() == [];
    }

    /** reset_fragment_context, which clears the identifier too. */
    method Reset()
      modifies this
      ensures View() == R.NewContext(0) && Valid() && fragments == null
    {
      identifier, total, count, totalMessageLen, fragments := 0, 0, 0, 0, null;
      assert Slots() == [];
    }

    /** Announces the total and allocates the array, if that has not been done. */
    method Announce(t: nat)
      requires Valid() && t > 0 && (total == 0 || total == t)
      modifies this`total, this`fragments
      ensures total == t && fragments != null && fragments.Length == t
      ensures Slots() == if old(total) == 0 then R.Empty(t) else old(Slots())
      ensures fragments == old(fragments) || fresh(fragments)
    {
      total := t;
      if fragments == null {
        fragments := new Option<string>[t](_ => None);
        assert fragments[..] == R.Empty(t);
      }
    }

    /** copy_fragment_to_context and the count. */
    method CopyFragment(i: nat, piece: string)
      requires fragments != null && 1 <= i <= fragments.Length
      modifies this`count, this`totalMessageLen, fragments
      ensures fragments[..] == old(fragments[..])[i - 1 := Some(piece)]
      ensures count == old(count) + 1 && totalMessageLen == old(totalMessageLen) + |piece|
    {
      fragments[i - 1] := Some(piece);
      totalMessageLen := totalMessageLen + |piece|;
      count := count + 1;
    }

    /** join_fragments: the buffer of the counted length, and one more character for the NUL, is exactly
        filled. */
    method JoinFragments() returns (buffer: array<char>)
      requires fragments != null && fragments.Length == total && forall k | 0 <= k < total :: fragments[k].Some?
      requires totalMessageLen == |R.Join(fragments[..])|
      ensures fresh(buffer) && buffer.Length == totalMessageLen + 1
      ensures buffer[..] == R.Join(fragments[..]) + ['\0']
    {
      buffer := new char[totalMessageLen + 1](_ => '\0');
      var i, end := 0, 0;
      while i < total
        invariant 0 <= i <= total && 0 <= end <= totalMessageLen
        invariant end + |R.Join(fragments[i..])| == totalMessageLen
        invariant buffer[..end] + R.Join(fragments[i..]) == R.Join(fragments[..])
        invariant forall k | end <= k < buffer.Length :: buffer[k] == '\0'
      {
        assert fragments[i..][1..] == fragments[i + 1..] && fragments[i..][0] == fragments[i];
        JoinedSoFar(buffer[..end], fragments[i].value, R.Join(fragments[i + 1..]));
        end := CopyString(buffer, end, fragments[i].value);
        i := i + 1;
      }
      assert fragments[total..] == [];
      assert buffer[..] == buffer[..end] + [buffer[end]];
    }

    /** Stores the fragment in a free slot, and joins the message when it was the last. */
    method Fill(h: Header, piece: string, ghost before: seq<Option<string>>) returns (out: Option<string>)
      requires fragments != null && fragments.Length == total == h.t && 1 <= h.i <= h.t && before == fragments[..]
      requires before[h.i - 1].None? && count == R.CountSome(before) && totalMessageLen == |R.Join(before)|
      modifies this`count, this`totalMessageLen, fragments
      ensures var after := before[h.i - 1 := Some(piece)];
              && fragments[..] == after && Valid()
              && count == R.CountSome(after) == old(count) + 1 && totalMessageLen == old(totalMessageLen) + |piece|
              && out == if count == h.t then Some(R.Join(after)) else None
    {
      R.FillSlot(before, h.i - 1, piece);
      CopyFragment(h.i, piece);
      out := None;
      if count == h.t {
        R.CompleteMeansFull(fragments[..]);
        assert forall k | 0 <= k < total :: fragments[k] == fragments[..][k];
        var buffer := JoinFragments();
        out := Some(buffer[..totalMessageLen]);
      }
    }

    /** The part of otrng_unfragment_message_generic that works on the context found. */
    method Accept(h: Header, piece: string) returns (ok: bool, out: Option<string>)
      requires Valid()
      modifies this, fragments
      ensures var p := R.Place(old(View()), h, piece);
              && ok == !p.Refused?
              && out == (if p.Complete? then Some(p.message) else None)
              && (p.Refused? ==> View() == old(View()))
              && (p.Stored? ==> View() == p.c)
      ensures out.None? ==> Valid()
      ensures fragments == old(fragments) || fragments == null || fresh(fragments)
    {
      if h.i == 0 || h.t == 0 || h.i > h.t {
        Reset();
        return true, None;
      }
      if total != 0 && total != h.t {
        return false, None;
      }
      Announce(h.t);
      if fragments[h.i - 1] != None {
        return false, None;
      }
      ok := true;
      out := Fill(h, piece, Slots());
    }
  }

  ghost function Arrays(contexts: seq<FragmentContext>): (s: set<array?<Option<string>>>)
    reads contexts
  {
    set c | c in contexts :: c.fragments
  }

  ghost function Views(contexts: seq<FragmentContext>): (v: seq<R.Context>)
    reads contexts, Arrays(contexts)
    ensures |v| == |contexts|
    ensures forall n: nat | n < |contexts| :: v[n] == contexts[n].View()
  {
    if contexts == [] then [] else
      assert forall c | c in contexts[1..] :: c in contexts;
      [contexts[0].View()] + Views(contexts[1..])
  }

  /** No context, and no array, is shared between two entries. */
  ghost predicate Separate(contexts: seq<FragmentContext>)
    reads contexts
  {
    forall m: nat, n: nat | m < n < |contexts| ::
      contexts[m] != contexts[n] && (contexts[m].fragments == contexts[n].fragments ==> contexts[m].fragments == null)
  }

  ghost predicate AllValid(contexts: seq<FragmentContext>)
    reads contexts, Arrays(contexts)
  {
    forall n: nat | n < |contexts| :: contexts[n].Valid()
  }

  lemma ValidMeansSound(contexts: seq<FragmentContext>)
    requires AllValid(contexts)
    ensures R.AllSound(Views(contexts))
  {
  }

  lemma FindIs(table: seq<R.Context>, identifier: nat, n: nat)
    requires n <= |table| && R.Absent(table[..n], identifier)
    requires n < |table| ==> table[n].identifier == identifier
    ensures R.Find(table, identifier) == n
  {
    assert table == table[..n] + table[n..];
    R.FindSkips(table[..n], table[n..], identifier);
  }

  /** All contexts but the n-th are valid and as the views say. */
  ghost predicate OthersAre(contexts: seq<FragmentContext>, n: nat, views: seq<R.Context>)
    reads contexts, Arrays(contexts)
  {
    |views| == |contexts| &&
    forall m: nat | m < |contexts| && m != n :: contexts[m].Valid() && contexts[m].View() == views[m]
  }

  lemma TakesPlace(contexts: seq<FragmentContext>, n: nat, views: seq<R.Context>)
    requires n < |contexts| && OthersAre(contexts, n, views) && contexts[n].Valid()
    ensures Views(contexts) == views[..n] + [contexts[n].View()] + views[n + 1..] && AllValid(contexts)
  {
  }

  lemma DropsOut(contexts: seq<FragmentContext>, n: nat, views: seq<R.Context>)
    requires n < |contexts| && OthersAre(contexts, n, views) && Separate(contexts)
    ensures var rest := contexts[..n] + contexts[n + 1..];
            && Views(rest) == views[..n] + [] + views[n + 1..]
            && Separate(rest) && AllValid(rest)
  {
    var rest := contexts[..n] + contexts[n + 1..];
    forall m: nat | m < |rest|
      ensures rest[m] == contexts[if m < n then m else m + 1]
    {
    }
  }

  function ResultOf(table: seq<R.Context>, p: R.Placed): R.Result {
    R.Result(table, !p.Refused?, if p.Complete? then Some(p.message) else None)
  }

  /** Feeding the table is placing the fragment at the context found. */
  lemma FeedsFound(table: seq<R.Context>, n: nat, h: Header, piece: string, p: R.Placed)
    requires R.AllSound(table) && n == R.Find(table, h.identifier) && n < |table|
    requires R.Sound(table[n]) && p == R.Place(table[n], h, piece)
    ensures R.FeedTable(table, h, piece) == ResultOf(table[..n] + R.Kept(table[n], p) + table[n + 1..], p)
  {
  }

  /** Or at a new context, added at the end. */
  lemma FeedsNew(before: seq<R.Context>, table: seq<R.Context>, h: Header, piece: string, p: R.Placed)
    requires R.AllSound(before) && R.Absent(before, h.identifier)
    requires table == before + [R.NewContext(h.identifier)]
    requires p == R.Place(R.NewContext(h.identifier), h, piece)
    ensures var n := |before|;
            R.FeedTable(before, h, piece) == ResultOf(table[..n] + R.Kept(table[n], p) + table[n + 1..], p)
  {
    R.FeedAbsent(before, h, piece);
    assert table[..|before|] == before;
    assert before + R.Kept(R.NewContext(h.identifier), p) + [] == before + R.Kept(R.NewContext(h.identifier), p);
  }

  lemma AddedSeparate(contexts: seq<FragmentContext>, c: FragmentContext, views: seq<R.Context>)
    requires Separate(contexts) && c !in contexts && c.Valid() && c.fragments == null
    requires |views| == |contexts| && forall m: nat | m < |contexts| :: contexts[m].View() == views[m] && contexts[m].Valid()
    ensures Separate(contexts + [c]) && AllValid(contexts + [c])
    ensures Views(contexts + [c]) == views + [c.View()]
  {
    var all := contexts + [c];
    forall n: nat | n < |all|
      ensures all[n].Valid()
    {
      assert n < |contexts| ==> contexts[n].Valid();
    }
  }

  class Reassembler {
    var contexts: seq<FragmentContext>

    ghost predicate Valid()
      reads this, contexts, Arrays(contexts)
    {
      Separate(contexts) && AllValid(contexts)
    }

    constructor ()
      ensures Valid() && contexts == []
    {
      contexts := [];
    }

    method FindContext(identifier: nat) returns (n: nat)
      requires Valid()
      ensures Valid() && Views(contexts) == old(Views(contexts))
      ensures n == R.Find(Views(contexts), identifier) && n <= |contexts|
    {
      n := 0;
      while n < |contexts| && contexts[n].identifier != identifier
        invariant n <= |contexts|
        invariant forall m: nat | m < n :: contexts[m].identifier != identifier
      {
        n := n + 1;
      }
      ghost var views := Views(contexts);
      assert forall m: nat | m < n :: views[..n][m].identifier != identifier;
      FindIs(views, identifier, n);
    }

    method AddContext(identifier: nat)
      requires Valid()
      modifies this
      ensures Valid() && |contexts| == |old(contexts)| + 1 && contexts[..|old(contexts)|] == old(contexts)
      ensures fresh(contexts[|contexts| - 1]) && contexts[|contexts| - 1].fragments == null
      ensures Views(contexts) == old(Views(contexts)) + [R.NewContext(identifier)]
    {
      ghost var was, views := contexts, Views(contexts);
      var c := new FragmentContext(identifier);
      contexts := contexts + [c];
      assert forall m: nat | m < |was| :: was[m].View() == views[m] && was[m].Valid();
      AddedSeparate(was, c, views);
    }
  
    /** Context n takes the fragment; the others stay. */
    method AcceptAt(n: nat, h: Header, piece: string) returns (ok: bool, out: Option<string>, ghost p: R.Placed)
      requires Valid() && n < |contexts|
      modifies contexts[n], contexts[n].fragments
      ensures p == R.Place(old(contexts[n].View()), h, piece)
      ensures ok == !p.Refused? && out == if p.Complete? then Some(p.message) else None
      ensures OthersAre(contexts, n, old(Views(contexts)))
      ensures forall m: nat | m < |contexts| && m != n :: contexts[m].fragments == old(contexts[m].fragments)
      ensures var f := contexts[n].fragments; f == old(contexts[n].fragments) || f == null || fresh(f)
      ensures out.None? ==> contexts[n].Valid() && R.Kept(old(contexts[n].View()), p) == [contexts[n].View()]
    {
      p := R.Place(contexts[n].View(), h, piece);
      ok, out := AcceptIn(contexts[n], h, piece);
    }

    /** Accept, in the terms AcceptAt needs. */
    method AcceptIn(context: FragmentContext, h: Header, piece: string) returns (ok: bool, out: Option<string>)
      requires context.Valid()
      modifies context, context.fragments
      ensures var p := R.Place(old(context.View()), h, piece);
              && ok == !p.Refused? && out == (if p.Complete? then Some(p.message) else None)
              && (out.None? ==> context.Valid() && R.Kept(old(context.View()), p) == [context.View()])
      ensures context.fragments == old(context.fragments) || context.fragments == null || fresh(context.fragments)
    {
      ok, out := context.Accept(h, piece);
    }

    /** Context n takes the fragment, and leaves the table when it is complete. */
    method FeedContext(n: nat, h: Header, piece: string) returns (ok: bool, out: Option<string>, ghost p: R.Placed)
      requires Valid() && n < |contexts|
      modifies this, contexts[n], contexts[n].fragments
      ensures p == R.Place(old(contexts[n].View()), h, piece)
      ensures ok == !p.Refused? && out == if p.Complete? then Some(p.message) else None
      ensures Valid()
      ensures Views(contexts) == old(Views(contexts))[..n] + R.Kept(old(contexts[n].View()), p)
                                 + old(Views(contexts))[n + 1..]
    {
      ok, out, p := AcceptAt(n, h, piece);
      assert Separate(contexts);
      Settle(n, out.Some?, old(Views(contexts)));
    }

    /** Removes context n from the table if its message is complete. */
    method Settle(n: nat, complete: bool, ghost views: seq<R.Context>)
      requires n < |contexts| && OthersAre(contexts, n, views) && Separate(contexts)
      requires !complete ==> contexts[n].Valid()
      modifies this
      ensures Valid()
      ensures Views(contexts) == views[..n] + (if complete then [] else [old(contexts[n].View())]) + views[n + 1..]
    {
      if complete {
        DropsOut(contexts, n, views);
        contexts := contexts[..n] + contexts[n + 1..];
      } else {
        TakesPlace(contexts, n, views);
      }
    }

    /** otrng_unfragment_message. */
    method Unfragment(msg: string, ourTag: nat) returns (ok: bool, out: Option<string>)
      requires Valid()
      modifies this, contexts, Arrays(contexts)
      ensures Valid()
      ensures R.AllSound(old(Views(contexts)))
      ensures R.Feed(old(Views(contexts)), msg, ourTag) == R.Result(Views(contexts), ok, out)
    {
      ValidMeansSound(contexts);
      if !(PREFIX <= msg) {
        return true, Some(msg);
      }
      var s := Scan(msg);
      if ourTag != s.header.receiver && s.header.receiver != 0 {
        return true, None;
      }
      if s.piece.None? {
        return false, None;
      }
      ok, out := UnfragmentPiece(s.header, s.piece.value);
    }

    method UnfragmentPiece(h: Header, piece: string) returns (ok: bool, out: Option<string>)
      requires Valid()
      modifies this, contexts, Arrays(contexts)
      ensures Valid()
      ensures R.AllSound(old(Views(contexts)))
      ensures R.FeedTable(old(Views(contexts)), h, piece) == R.Result(Views(contexts), ok, out)
    {
      ghost var views := Views(contexts);
      ValidMeansSound(contexts);
      var n := FindContext(h.identifier);
      if n < |contexts| {
        ok, out := FeedFound(n, h, piece, views);
      } else {
        ok, out := FeedNew(h, piece, views);
      }
    }

    method FeedFound(n: nat, h: Header, piece: string, ghost views: seq<R.Context>)
      returns (ok: bool, out: Option<string>)
      requires Valid() && views == Views(contexts) && R.AllSound(views)
      requires n == R.Find(views, h.identifier) && n < |contexts|
      modifies this, contexts[n], contexts[n].fragments
      ensures Valid()
      ensures R.FeedTable(views, h, piece) == R.Result(Views(contexts), ok, out)
    {
      assert views[n] in views;
      FeedsFound(views, n, h, piece, R.Place(views[n], h, piece));
      ghost var p;
      ok, out, p := FeedContext(n, h, piece);
    }

    method FeedNew(h: Header, piece: string, ghost views: seq<R.Context>) returns (ok: bool, out: Option<string>)
      requires Valid() && views == Views(contexts) && R.AllSound(views)
      requires R.Find(views, h.identifier) == |contexts|
      modifies this
      ensures Valid()
      ensures R.FeedTable(views, h, piece) == R.Result(Views(contexts), ok, out)
    {
      var n := |contexts|;
      AddContext(h.identifier);
      assert views[..n] == views;
      FeedsNew(views, Views(contexts), h, piece, R.Place(R.NewContext(h.identifier), h, piece));
      ghost var p;
      ok, out, p := FeedContext(n, h, piece);
    }
  }
}
