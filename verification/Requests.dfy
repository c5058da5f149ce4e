/**
 What the messages to an arbiter say on their own: who is registered, and what each client
 last asked.
 */
module Requests {
  import opened ArbiterSpec

  /** A request: its place among the messages, its time and its rate. */
  datatype Ask = Ask(at: nat, ts: int, rate: real)

  /** A gate message registers a client or removes it. */
  predicate Registered(ms: seq<Message>, p: Pid) {
    if ms == [] then false
    else
      var before, m := ms[..|ms| - 1], ms[|ms| - 1];
      if m == Gate(p) && p > 0 then !Registered(before, p) else Registered(before, p)
  }

  /** The last request of a client since it was registered. */
  function LastAsk(ms: seq<Message>, p: Pid): Option<Ask> {
    if ms == [] then None
    else
      var before, m := ms[..|ms| - 1], ms[|ms| - 1];
      if m == Gate(p) then None
      else if m.Request? && m.pid == p && Registered(before, p) then Some(Ask(|before|, m.ts, m.rate))
      else LastAsk(before, p)
  }

  /** The time of the last request of any registered client. */
  function LastTime(ms: seq<Message>): int {
    if ms == [] then 0
    else
      var before, m := ms[..|ms| - 1], ms[|ms| - 1];
      if m.Request? && Registered(before, m.pid) then m.ts else LastTime(before)
  }

  /** How the last message changes them. */
  lemma OneMoreMessage(ms: seq<Message>, m: Message, p: Pid)
    ensures Registered(ms + [m], p) == if m == Gate(p) && p > 0 then !Registered(ms, p) else Registered(ms, p)
    ensures LastAsk(ms + [m], p)
            == if m == Gate(p) then None
               else if m.Request? && m.pid == p && Registered(ms, p) then Some(Ask(|ms|, m.ts, m.rate))
               else LastAsk(ms, p)
    ensures LastTime(ms + [m]) == if m.Request? && Registered(ms, m.pid) then m.ts else LastTime(ms)
  {
    assert (ms + [m])[..|ms|] == ms;
  }

  lemma OneMoreForAll(ms: seq<Message>, m: Message)
    ensures forall p :: Registered(ms + [m], p) == if m == Gate(p) && p > 0 then !Registered(ms, p) else Registered(ms, p)
    ensures forall p :: LastAsk(ms + [m], p)
                        == if m == Gate(p) then None
                           else if m.Request? && m.pid == p && Registered(ms, p) then Some(Ask(|ms|, m.ts, m.rate))
                           else LastAsk(ms, p)
    ensures LastTime(ms + [m]) == if m.Request? && Registered(ms, m.pid) then m.ts else LastTime(ms)
  {
    forall p: Pid
      ensures Registered(ms + [m], p) == if m == Gate(p) && p > 0 then !Registered(ms, p) else Registered(ms, p)
      ensures LastAsk(ms + [m], p)
              == if m == Gate(p) then None
                 else if m.Request? && m.pid == p && Registered(ms, p) then Some(Ask(|ms|, m.ts, m.rate))
                 else LastAsk(ms, p)
    {
      OneMoreMessage(ms, m, p);
    }
    OneMoreMessage(ms, m, m.pid);
  }

  /** A message that neither registers, removes nor asks says nothing new. */
  lemma SaysNothing(ms: seq<Message>, m: Message)
    requires m.Finish? || (m.Request? && !Registered(ms, m.pid))
    ensures forall p :: Registered(ms + [m], p) == Registered(ms, p)
    ensures forall p :: LastAsk(ms + [m], p) == LastAsk(ms, p)
    ensures LastTime(ms + [m]) == LastTime(ms)
  {
    OneMoreForAll(ms, m);
  }

  lemma {:induction false} AskedBefore(ms: seq<Message>, p: Pid)
    ensures LastAsk(ms, p).Some? ==> LastAsk(ms, p).value.at < |ms|
  {
    if ms != [] {
      AskedBefore(ms[..|ms| - 1], p);
    }
  }

  /** No request of a registered client carries an earlier time than the one before it. */
  predicate InOrder(ms: seq<Message>) {
    if ms == [] then true
    else
      var before, m := ms[..|ms| - 1], ms[|ms| - 1];
      InOrder(before) && (m.Request? && Registered(before, m.pid) && AnyAsked(before) ==> m.ts >= LastTime(before))
  }

  predicate AnyAsked(ms: seq<Message>) {
    if ms == [] then false
    else
      var before, m := ms[..|ms| - 1], ms[|ms| - 1];
      (m.Request? && Registered(before, m.pid)) || AnyAsked(before)
  }

  lemma {:induction false} AskedInOrder(ms: seq<Message>, p: Pid)
    requires InOrder(ms)
    ensures LastAsk(ms, p).Some? ==> AnyAsked(ms) && LastAsk(ms, p).value.ts <= LastTime(ms)
  {
    if ms != [] {
      AskedInOrder(ms[..|ms| - 1], p);
    }
  }

  /** The first message of the rest joins what came before. */
  lemma MessagesShift(done: seq<Message>, ms: seq<Message>)
    ensures ms == [] ==> done + ms == done
    ensures ms != [] ==> done + [ms[0]] + ms[1..] == done + ms
  {
  }
}
