/** What is said is what arrives: the texts of a run, in the order they were sent, and the messages that carry them. */
module RatchetTexts {
  import opened Prelude
  import opened Keys
  import opened KeyManager
  import opened RatchetSession
  import opened RatchetProofs
  import opened RatchetDelivery
  import opened RatchetTheorems
  import opened RatchetGaps

  /** The texts a side has sent in the course of a run. Before 'u' has received it sends nothing. */
  function Texts(s0: Session, events: seq<Event>, maxSkip: nat, p: Party): seq<string> {
    if events == [] then []
    else
      var before := events[..|events| - 1];
      match events[|events| - 1]
      case SendEvent(q, text) =>
        if q == p && Run(s0, before, maxSkip).MaySend(p) then Texts(s0, before, maxSkip, p) + [text]
        else Texts(s0, before, maxSkip, p)
      case _ => Texts(s0, before, maxSkip, p)
  }

  /** How many messages a side has sent in the first n ratchets. */
  function SentBefore(counts: seq<nat>, n: nat, p: Party): nat {
    if n == 0 then 0
    else SentBefore(counts, n - 1, p) + if SenderOf(n - 1) == p then Count(counts, n - 1) else 0
  }

  /** The number of message (r, id) among all its sender has sent. */
  function Ordinal(counts: seq<nat>, r: nat, id: nat): nat { SentBefore(counts, r, SenderOf(r)) + id }

  /** The log holds the texts of p in order. */
  ghost predicate Carries(s: Session, p: Party, texts: seq<string>) {
    && |texts| == SentBefore(s.counts, |s.counts|, p)
    && forall r: nat, id: nat | (r, id) in s.log && SenderOf(r) == p ::
         Ordinal(s.counts, r, id) < |texts| && s.log[(r, id)].msg.body.payload == texts[Ordinal(s.counts, r, id)]
  }

  lemma {:induction false} CountedElsewhere(counts: seq<nat>, r: nat, n: nat, p: Party)
    requires r <= |counts| && (n <= r || SenderOf(r) != p)
    ensures SentBefore(Counted(counts, r), n, p) == SentBefore(counts, n, p)
  {
    if n > 0 {
      CountedElsewhere(counts, r, n - 1, p);
    }
  }

  /** All of a side's messages so far are those up to the next one of its last ratchet. */
  lemma SentInAll(counts: seq<nat>, r: nat, p: Party)
    requires SenderOf(r) == p && r <= |counts| <= r + 2
    ensures SentBefore(counts, |counts|, p) == Ordinal(counts, r, Count(counts, r))
    ensures SentBefore(Counted(counts, r), |Counted(counts, r)|, p) == SentBefore(counts, |counts|, p) + 1
  {
    var counts' := Counted(counts, r);
    CountedElsewhere(counts, r, r, p);
    assert Count(counts', r) == Count(counts, r) + 1;
    LastOfSide(counts, r, |counts|, p);
    LastOfSide(counts', r, |counts'|, p);
  }

  lemma LastOfSide(counts: seq<nat>, r: nat, n: nat, p: Party)
    requires SenderOf(r) == p && n == |counts| && r <= n <= r + 2
    ensures SentBefore(counts, n, p) == SentBefore(counts, r, p) + Count(counts, r)
  {
    assert SenderOf(r + 1) != p;
  }

  lemma SendCarries(s: Session, s': Session, p: Party, q: Party, r: nat, sent: Sent, texts: seq<string>)
    requires Carries(s, q, texts) && SentMore(s, s', p, r, sent)
    requires SenderOf(r) == p && r <= |s.counts| <= r + 2 && sent.msg.body.id == Count(s.counts, r)
    requires forall r': nat, id: nat | (r', id) in s.log :: r' < |s.counts|
    ensures Carries(s', q, if q == p then texts + [sent.msg.body.payload] else texts)
  {
    var texts' := if q == p then texts + [sent.msg.body.payload] else texts;
    if q == p {
      SentInAll(s.counts, r, p);
    } else {
      OtherUnchanged(s.counts, r, q);
    }
    forall r': nat, id: nat | (r', id) in s'.log && SenderOf(r') == q
      ensures Ordinal(s'.counts, r', id) < |texts'|
      ensures s'.log[(r', id)].msg.body.payload == texts'[Ordinal(s'.counts, r', id)]
    {
      LastRatchet(|s.counts|, r, r', p);
      CountedElsewhere(s.counts, r, r', q);
    }
  }

  lemma LastRatchet(n: nat, r: nat, r': nat, p: Party)
    requires SenderOf(r) == p && r <= n <= r + 2 && (r' < n || r' == r)
    ensures SenderOf(r') == p ==> r' <= r
  {
  }

  lemma OtherUnchanged(counts: seq<nat>, r: nat, q: Party)
    requires SenderOf(r) != q && r <= |counts|
    ensures SentBefore(Counted(counts, r), |Counted(counts, r)|, q) == SentBefore(counts, |counts|, q)
  {
    CountedElsewhere(counts, r, |Counted(counts, r)|, q);
  }

  lemma OnlySendsLog(s: Session, e: Event, maxSkip: nat)
    requires !e.SendEvent?
    ensures Step(s, e, maxSkip).counts == s.counts && Step(s, e, maxSkip).log == s.log
  {
  }

  lemma SendStepCarries(st: Start, s: Session, p: Party, text: string, q: Party, texts: seq<string>)
    requires Inv(st, s) && s.MaySend(p) && Carries(s, q, texts)
    ensures Carries(SendStep(s, p, text), q, if q == p then texts + [text] else texts)
  {
    var r, sent := SendKeepsSides(st, s, p, text);
    SendCarries(s, SendStep(s, p, text), p, q, r, sent, texts);
  }

  lemma StepCarries(st: Start, s: Session, e: Event, maxSkip: nat, q: Party, texts: seq<string>)
    requires Inv(st, s) && Carries(s, q, texts)
    ensures Carries(Step(s, e, maxSkip), q,
                    if e.SendEvent? && e.p == q && s.MaySend(q) then texts + [e.payload] else texts)
  {
    if e.SendEvent? {
      if s.MaySend(e.p) {
        SendStepCarries(st, s, e.p, e.payload, q, texts);
      }
    } else {
      OnlySendsLog(s, e, maxSkip);
    }
  }

  /** After every honest run the messages of each side carry its texts: the n-th message the n-th text. */
  lemma {:induction false} TextsCarried(st: Start, s0: Session, events: seq<Event>, maxSkip: nat, p: Party)
    requires Initial(st, s0) && HonestRun(s0, events, maxSkip)
    ensures Carries(Run(s0, events, maxSkip), p, Texts(s0, events, maxSkip, p))
  {
    if events != [] {
      var before, e := events[..|events| - 1], events[|events| - 1];
      TextsCarried(st, s0, before, maxSkip, p);
      HonestRunKeepsInv(st, s0, before, maxSkip);
      StepCarries(st, Run(s0, before, maxSkip), e, maxSkip, p, Texts(s0, before, maxSkip, p));
    }
  }

  lemma RunReachable(st: Start, s0: Session, events: seq<Event>, maxSkip: nat)
    requires Initial(st, s0) && HonestRun(s0, events, maxSkip)
    ensures Reachable(st, Run(s0, events, maxSkip), maxSkip)
  {
  }

  /** What arrives is what was said: after every honest run, accepting a message that was sent and neither delivered
      nor lost hands on the very text its sender sent as the message of that number. */
  lemma TextArrives(st: Start, s0: Session, events: seq<Event>, maxSkip: nat, r: nat, id: nat)
    requires Initial(st, s0) && HonestRun(s0, events, maxSkip)
    requires var s := Run(s0, events, maxSkip);
             && (r, id) in s.log && (r, id) !in s.Gone()
             && CanReach(s.Of(Other(SenderOf(r))), s.log[(r, id)].msg.body, maxSkip)
    ensures var s, texts := Run(s0, events, maxSkip), Texts(s0, events, maxSkip, SenderOf(r));
            var receipt := Receive(s.Of(Other(SenderOf(r))), s.log[(r, id)].msg, maxSkip);
            && Ordinal(s.counts, r, id) < |texts|
            && receipt.Accepted? && receipt.payload == texts[Ordinal(s.counts, r, id)]
  {
    TextsCarried(st, s0, events, maxSkip, SenderOf(r));
    RunReachable(st, s0, events, maxSkip);
    RatchetAgreement(st, Run(s0, events, maxSkip), maxSkip, r, id);
  }

  lemma {:induction false} CountedMessage(counts: seq<nat>, n: nat, p: Party, x: nat) returns (r: nat, id: nat)
    requires x < SentBefore(counts, n, p)
    ensures r < n && SenderOf(r) == p && id < Count(counts, r) && Ordinal(counts, r, id) == x
  {
    if x < SentBefore(counts, n - 1, p) {
      r, id := CountedMessage(counts, n - 1, p, x);
    } else {
      r, id := n - 1, x - SentBefore(counts, n - 1, p);
    }
  }

  /** Every text sent is in a message. */
  lemma EveryTextIsSent(st: Start, s0: Session, events: seq<Event>, maxSkip: nat, p: Party, x: nat)
    returns (r: nat, id: nat)
    requires Initial(st, s0) && HonestRun(s0, events, maxSkip) && x < |Texts(s0, events, maxSkip, p)|
    ensures var s := Run(s0, events, maxSkip);
            && (r, id) in s.log && SenderOf(r) == p && Ordinal(s.counts, r, id) == x
            && s.log[(r, id)].msg.body.payload == Texts(s0, events, maxSkip, p)[x]
  {
    TextsCarried(st, s0, events, maxSkip, p);
    HonestRunKeepsInv(st, s0, events, maxSkip);
    var s := Run(s0, events, maxSkip);
    r, id := CountedMessage(s.counts, |s.counts|, p, x);
  }
}
