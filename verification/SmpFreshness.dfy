/**
 Which request a responder's success answers. A party keeps the last message 1 it accepted for
 good, so an exchange can be answered again after it has concluded.
 */
module SmpFreshness {
  import opened Prelude
  import opened Smp
  import opened SmpSafety

  /** The event that input n brings about. */
  function EventAt(q: nat, hash: Hash, inputs: seq<Input>, n: nat): Event
    requires q > 1 && n < |inputs|
  {
    Step(q, hash, StateAt(q, hash, inputs, n), inputs[n]).event
  }

  function EventsOf(q: nat, hash: Hash, inputs: seq<Input>): (events: seq<Event>)
    requires q > 1
    ensures |events| == |inputs| && forall n: nat | n < |inputs| :: events[n] == EventAt(q, hash, inputs, n)
  {
    seq(|inputs|, n requires 0 <= n < |inputs| => EventAt(q, hash, inputs, n))
  }

  /** The stored message 1 before each input, and after the last. */
  function StoredOf(q: nat, hash: Hash, inputs: seq<Input>): (stored: seq<Option<Message1>>)
    requires q > 1
    ensures |stored| == |inputs| + 1
    ensures forall n: nat | n <= |inputs| :: stored[n] == StateAt(q, hash, inputs, n).message1
  {
    seq(|inputs| + 1, n requires 0 <= n <= |inputs| => StateAt(q, hash, inputs, n).message1)
  }

  /** Whether a request is open, as a user interface sees it: of the requests and the conclusions among the
      first n events, the last is a request. */
  function RequestOpen(events: seq<Event>, n: nat): bool
    requires n <= |events|
  {
    if n == 0 then false
    else if events[n - 1] == AskForAnswer then true
    else if Concluding(events[n - 1]) then false
    else RequestOpen(events, n - 1)
  }

  /** No exchange concludes at the events from lo up to hi. */
  predicate NoneConcludes(events: seq<Event>, lo: nat, hi: nat)
    requires hi <= |events|
  {
    forall c | lo <= c < hi :: !Concluding(events[c])
  }

  /** The last request among the first n events. */
  predicate LastRequest(events: seq<Event>, n: nat, h: nat)
    requires n <= |events|
  {
    h < n && events[h] == AskForAnswer && forall c | h < c < n :: events[c] != AskForAnswer
  }

  /** The stored message 1 changes exactly with a request. */
  lemma RequestStores(q: nat, hash: Hash, st: State, input: Input)
    requires q > 1
    ensures var o := Step(q, hash, st, input);
            if o.event == AskForAnswer then
              input.Arrive? && input.tlv == Msg1(o.st.message1)
            else o.st.message1 == st.message1
  {
    match input
    case Arrive(tlv, k) =>
      match tlv {
        case Msg1(body) =>
        case Msg2(body) =>
        case Msg3(body) =>
        case Msg4(body) =>
        case AbortTlv =>
        case OtherTlv =>
      }
    case _ =>
  }

  /** Each request stores the message 1 that came, and nothing else touches it. */
  predicate RequestsStore(inputs: seq<Input>, events: seq<Event>, stored: seq<Option<Message1>>)
    requires |events| == |inputs| && |stored| == |inputs| + 1
  {
    forall n: nat | n < |inputs| ::
      if events[n] == AskForAnswer then inputs[n].Arrive? && inputs[n].tlv == Msg1(stored[n + 1])
      else stored[n + 1] == stored[n]
  }

  lemma TraceStores(q: nat, hash: Hash, inputs: seq<Input>)
    requires q > 1
    ensures RequestsStore(inputs, EventsOf(q, hash, inputs), StoredOf(q, hash, inputs))
    ensures StoredOf(q, hash, inputs)[0] == None
  {
    forall n: nat | n < |inputs|
      ensures var events, stored := EventsOf(q, hash, inputs), StoredOf(q, hash, inputs);
              if events[n] == AskForAnswer then inputs[n].Arrive? && inputs[n].tlv == Msg1(stored[n + 1])
              else stored[n + 1] == stored[n]
    {
      RequestStores(q, hash, StateAt(q, hash, inputs, n), inputs[n]);
    }
  }

  /** A stored message 1 stems from the last request. */
  lemma {:induction false} RequestOf(inputs: seq<Input>, events: seq<Event>, stored: seq<Option<Message1>>, n: nat)
    returns (h: nat)
    requires |events| == |inputs| && |stored| == |inputs| + 1 && RequestsStore(inputs, events, stored)
    requires stored[0] == None && n <= |inputs| && stored[n].Some?
    ensures LastRequest(events, n, h) && inputs[h].Arrive? && inputs[h].tlv == Msg1(stored[n])
  {
    if events[n - 1] == AskForAnswer {
      h := n - 1;
    } else {
      h := RequestOf(inputs, events, stored, n - 1);
    }
  }

  lemma {:induction false} OpenIff(events: seq<Event>, n: nat, h: nat)
    requires n <= |events| && LastRequest(events, n, h)
    ensures RequestOpen(events, n) <==> NoneConcludes(events, h, n)
  {
    if n - 1 > h {
      OpenIff(events, n - 1, h);
    }
  }

  /** The step before a wait for message 3 does not conclude, and is the answer or changes nothing. */
  lemma WaitStep(q: nat, hash: Hash, st: State, input: Input)
    requires q > 1 && Step(q, hash, st, input).st.awaits == E3
    ensures !Concluding(Step(q, hash, st, input).event)
    ensures Step(q, hash, st, input).st == st
         || (st.awaits == E1 && input.Answered? && st.message1.Some?)
  {
    WaitingStep(q, hash, st, input);
    ConcludingReturnsToStart(q, hash, st, input);
  }

  lemma OneMore(events: seq<Event>, lo: nat, n: nat)
    requires lo <= n < |events| && NoneConcludes(events, lo, n) && !Concluding(events[n])
    ensures NoneConcludes(events, lo, n + 1)
  {
  }

  /** The answer behind a wait for message 3, and that nothing has concluded since. */
  lemma {:induction false} AnswerOf(q: nat, hash: Hash, inputs: seq<Input>, n: nat) returns (i: nat)
    requires q > 1 && n <= |inputs| && StateAt(q, hash, inputs, n).awaits == E3
    ensures i < n && inputs[i].Answered? && StateAt(q, hash, inputs, i).awaits == E1
    ensures StateAt(q, hash, inputs, i).message1.Some?
    ensures StateAt(q, hash, inputs, n) == StateAt(q, hash, inputs, i + 1)
    ensures NoneConcludes(EventsOf(q, hash, inputs), i, n)
  {
    var before: nat := n - 1;
    WaitStep(q, hash, StateAt(q, hash, inputs, before), inputs[before]);
    if StateAt(q, hash, inputs, before).awaits == E3 {
      i := AnswerOf(q, hash, inputs, before);
    } else {
      i := before;
    }
    OneMore(EventsOf(q, hash, inputs), i, before);
  }

  lemma Joined(events: seq<Event>, h: nat, i: nat, n: nat)
    requires h <= i <= n <= |events| && NoneConcludes(events, i, n)
    ensures NoneConcludes(events, h, n) <==> NoneConcludes(events, h, i)
  {
  }

  /** A success on message 3 comes from a wait for it. */
  lemma RespondersWait(q: nat, hash: Hash, inputs: seq<Input>, n: nat)
    requires q > 1 && n < |inputs| && EventAt(q, hash, inputs, n) == Success
    requires inputs[n].Arrive? && inputs[n].tlv.Msg3?
    ensures StateAt(q, hash, inputs, n).awaits == E3
  {
    SuccessFrom(q, hash, StateAt(q, hash, inputs, n), inputs[n]);
  }

  /** The request behind a wait for message 3. */
  lemma WaitIsFreshIff(q: nat, hash: Hash, inputs: seq<Input>, n: nat) returns (h: nat, i: nat)
    requires q > 1 && n < |inputs| && StateAt(q, hash, inputs, n).awaits == E3
    ensures h < i < n && inputs[i].Answered? && LastRequest(EventsOf(q, hash, inputs), i, h)
    ensures inputs[h].Arrive? && inputs[h].tlv == Msg1(StateAt(q, hash, inputs, i).message1)
    ensures StateAt(q, hash, inputs, n) == StateAt(q, hash, inputs, i + 1)
    ensures NoneConcludes(EventsOf(q, hash, inputs), h, n) <==> RequestOpen(EventsOf(q, hash, inputs), i)
  {
    var events, stored := EventsOf(q, hash, inputs), StoredOf(q, hash, inputs);
    i := AnswerOf(q, hash, inputs, n);
    TraceStores(q, hash, inputs);
    h := RequestOf(inputs, events, stored, i);
    OpenIff(events, i, h);
    Joined(events, h, i, n);
  }

  /** The request behind a responder's success: nothing has concluded between it and the success if and only
      if it was still open when the answer was given. */
  lemma RequestIsFreshIff(q: nat, hash: Hash, inputs: seq<Input>, n: nat) returns (h: nat, i: nat)
    requires q > 1 && n < |inputs| && EventAt(q, hash, inputs, n) == Success
    requires inputs[n].Arrive? && inputs[n].tlv.Msg3?
    ensures h < i < n && inputs[i].Answered? && LastRequest(EventsOf(q, hash, inputs), i, h)
    ensures inputs[h].Arrive? && inputs[h].tlv == Msg1(StateAt(q, hash, inputs, i).message1)
    ensures StateAt(q, hash, inputs, n) == StateAt(q, hash, inputs, i + 1)
    ensures NoneConcludes(EventsOf(q, hash, inputs), h, n) <==> RequestOpen(EventsOf(q, hash, inputs), i)
  {
    RespondersWait(q, hash, inputs, n);
    h, i := WaitIsFreshIff(q, hash, inputs, n);
  }

  /** An old request can always be answered once more: whatever has concluded, a party at the start that has
      ever accepted a message 1 sends a message 2 for it. */
  lemma AnsweredAgain(q: nat, hash: Hash, st: State, secret: nat, k: Coins)
    requires q > 1 && st.awaits == E1
    ensures var o := Step(q, hash, st, Answered(secret, k));
            && (o.event == InProgress <==> st.message1.Some?)
            && (st.message1.Some? ==> o.st.awaits == E3 && o.st.g3a == st.message1.value.g3a)
  {
  }
}
