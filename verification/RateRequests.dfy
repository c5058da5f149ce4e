/**
 The arbiter of monitor/monitor_hb_from_cli.cpp as its clients see it: a queue entry carries the
 rate of its client's last request, and clients of equal rates are served in the order of their
 requests.
 */
module RateRequests {
  import opened ArbiterSpec
  import opened RateMonitor
  import opened Requests

  /** The entry is that of its client's last request. */
  ghost predicate EntryStores(e: Entry, ms: seq<Message>) {
    LastAsk(ms, e.pid).Some? && e.rate == LastAsk(ms, e.pid).value.rate
  }

  /** e's client asked with the lesser rate, or with the same rate and earlier. */
  ghost predicate Precedes(ms: seq<Message>, p: Pid, q: Pid) {
    LastAsk(ms, p).Some? && LastAsk(ms, q).Some? &&
    var a, b := LastAsk(ms, p).value, LastAsk(ms, q).value;
    a.rate < b.rate || (a.rate == b.rate && a.at < b.at)
  }

  /** The server stores what the messages say. */
  ghost predicate Stores(s: Server, ms: seq<Message>) {
    (forall p :: p in s.cnt <==> Registered(ms, p)) && QueueStores(s.queue, ms)
  }

  /** Every entry is that of its client's last request, and they stand in the order of service. */
  ghost predicate QueueStores(queue: seq<Entry>, ms: seq<Message>) {
    && (forall i :: 0 <= i < |queue| ==> EntryStores(queue[i], ms))
    && (forall i, j :: 0 <= i < j < |queue| ==> Precedes(ms, queue[i].pid, queue[j].pid))
  }

  // ---------------------------------------------------------------- one message

  /** A message that leaves alone what the waiting clients asked leaves the queue true. */
  lemma QueueStays(queue: seq<Entry>, ms: seq<Message>, m: Message)
    requires QueueStores(queue, ms)
    requires m.Finish? || forall i :: 0 <= i < |queue| ==> queue[i].pid != m.pid
    ensures QueueStores(queue, ms + [m])
  {
    forall i | 0 <= i < |queue|
      ensures LastAsk(ms + [m], queue[i].pid) == LastAsk(ms, queue[i].pid)
    {
      OneMoreMessage(ms, m, queue[i].pid);
    }
  }

  lemma GateKeepsStores(s: Server, ms: seq<Message>, m: Message)
    requires Stores(s, ms) && m.Gate? && Consistent(s)
    requires forall i :: 0 <= i < |s.queue| ==> s.queue[i].pid != m.pid
    requires forall p :: p in s.cnt ==> p > 0
    ensures Stores(Handle(s, m).server, ms + [m])
  {
    QueueStays(s.queue, ms, m);
    OneMoreForAll(ms, m);
  }

  /** e goes behind the entries with rates up to its own. */
  ghost predicate FitsIn(queue: seq<Entry>, ms: seq<Message>, e: Entry) {
    EntryStores(e, ms) && forall i :: 0 <= i < |queue| ==>
      if queue[i].rate <= e.rate then Precedes(ms, queue[i].pid, e.pid) else Precedes(ms, e.pid, queue[i].pid)
  }

  /** The newcomer goes behind all who asked with rates up to its own, and before all others. */
  lemma NewcomerFitsIn(queue: seq<Entry>, ms: seq<Message>, m: Message)
    requires QueueStores(queue, ms) && m.Request? && Registered(ms, m.pid)
    requires forall i :: 0 <= i < |queue| ==> queue[i].pid != m.pid
    ensures FitsIn(queue, ms + [m], Entry(m.rate, m.pid))
  {
    OneMoreMessage(ms, m, m.pid);
    forall i | 0 <= i < |queue|
      ensures if queue[i].rate <= m.rate then Precedes(ms + [m], queue[i].pid, m.pid) else Precedes(ms + [m], m.pid, queue[i].pid)
    {
      OneMoreMessage(ms, m, queue[i].pid);
      AskedBefore(ms, queue[i].pid);
    }
  }

  lemma InsertKeepsStores(queue: seq<Entry>, ms: seq<Message>, e: Entry)
    requires Ordered(queue) && QueueStores(queue, ms) && FitsIn(queue, ms, e)
    ensures QueueStores(Insert(queue, e), ms)
  {
    InsertShape(queue, e);
    var n, t := Place(queue, e.rate), Insert(queue, e);
    forall i | 0 <= i < |t|
      ensures EntryStores(t[i], ms)
    {
      assert t[i] == if i < n then queue[i] else if i == n then e else queue[i - 1];
    }
    forall i, j | 0 <= i < j < |t|
      ensures Precedes(ms, t[i].pid, t[j].pid)
    {
      InsertedPrecedes(queue, ms, e, n, t, i, j);
    }
  }

  lemma InsertedPrecedes(queue: seq<Entry>, ms: seq<Message>, e: Entry, n: nat, t: seq<Entry>, i: nat, j: nat)
    requires QueueStores(queue, ms) && FitsIn(queue, ms, e) && n <= |queue| && t == queue[..n] + [e] + queue[n..]
    requires (forall k :: 0 <= k < n ==> queue[k].rate <= e.rate) && (forall k :: n <= k < |queue| ==> e.rate < queue[k].rate)
    requires i < j < |t|
    ensures Precedes(ms, t[i].pid, t[j].pid)
  {
    assert t[i] == if i < n then queue[i] else if i == n then e else queue[i - 1];
    assert t[j] == if j < n then queue[j] else if j == n then e else queue[j - 1];
  }

  lemma RegisteredStay(ms: seq<Message>, m: Message)
    requires !m.Gate?
    ensures forall p :: Registered(ms + [m], p) == Registered(ms, p)
  {
    OneMoreForAll(ms, m);
  }

  lemma RequestKeepsStores(s: Server, ms: seq<Message>, m: Message)
    requires Stores(s, ms) && m.Request? && Consistent(s) && m.pid > 0 && m.pid in s.cnt
    requires forall i :: 0 <= i < |s.queue| ==> s.queue[i].pid != m.pid
    ensures Stores(Handle(s, m).server, ms + [m])
  {
    RegisteredStay(ms, m);
    QueueStays(s.queue, ms, m);
    if s.busy != 0 {
      NewcomerFitsIn(s.queue, ms, m);
      InsertKeepsStores(s.queue, ms + [m], Entry(m.rate, m.pid));
    }
  }

  lemma PopKeepsStores(queue: seq<Entry>, ms: seq<Message>)
    requires QueueStores(queue, ms) && queue != []
    ensures QueueStores(queue[1..], ms)
  {
  }

  lemma FinishKeepsStores(s: Server, ms: seq<Message>, m: Message)
    requires Stores(s, ms) && Consistent(s) && m.Finish?
    ensures Stores(Handle(s, m).server, ms + [m])
  {
    RegisteredStay(ms, m);
    QueueStays(s.queue, ms, m);
    if s.queue != [] {
      PopKeepsStores(s.queue, ms + [m]);
    }
  }

  lemma IgnoredKeepsStores(s: Server, ms: seq<Message>, m: Message)
    requires Stores(s, ms) && m.Request? && m.pid !in s.cnt
    requires forall i :: 0 <= i < |s.queue| ==> s.queue[i].pid != m.pid
    ensures Stores(s, ms + [m])
  {
    RegisteredStay(ms, m);
    QueueStays(s.queue, ms, m);
  }

  lemma StepKeepsStores(s: Server, h: History, ms: seq<Message>, m: Message)
    requires Valid(s, h) && Allowed(h, m) && Stores(s, ms)
    ensures var o := Handle(s, m);
      Valid(o.server, Observed(h, m, o.sent)) && Stores(o.server, ms + [m])
  {
    HandleRefines(s, h, m);
    assert forall p :: p in s.cnt ==> p in Abstract(s).cnt && p > 0;
    WaitersAreSilent(s, h, m);
    if m.Gate? {
      GateKeepsStores(s, ms, m);
    } else if m.Finish? {
      FinishKeepsStores(s, ms, m);
    } else if m.pid in s.cnt {
      RequestKeepsStores(s, ms, m);
    } else {
      IgnoredKeepsStores(s, ms, m);
    }
  }

  /** Who waits neither asks nor closes. */
  lemma WaitersAreSilent(s: Server, h: History, m: Message)
    requires Valid(s, h) && Allowed(h, m)
    ensures forall i :: 0 <= i < |s.queue| ==> s.queue[i].pid != m.pid
  {
    forall i | 0 <= i < |s.queue|
      ensures s.queue[i].pid != m.pid
    {
      assert s.queue[i].pid in Abstract(s).waiting;
    }
  }

  // ---------------------------------------------------------------- whole runs

  ghost predicate Tracks(s: Server, h: History, done: seq<Message>) {
    Valid(s, h) && Stores(s, done)
  }

  /** A run, taken apart at its first message. */
  lemma RunNext(s: Server, h: History, done: seq<Message>, ms: seq<Message>) returns (s': Server, h': History)
    requires Tracks(s, h, done) && AllowedRun(s, h, ms) && ms != []
    ensures Tracks(s', h', done + [ms[0]]) && AllowedRun(s', h', ms[1..])
    ensures After(s, h, ms) == After(s', h', ms[1..])
  {
    StepKeepsStores(s, h, done, ms[0]);
    var o := Handle(s, ms[0]);
    s', h' := o.server, Observed(h, ms[0], o.sent);
  }

  lemma {:induction false} RunKeepsStores(s: Server, h: History, done: seq<Message>, ms: seq<Message>)
    requires Tracks(s, h, done) && AllowedRun(s, h, ms)
    ensures Tracks(After(s, h, ms).server, After(s, h, ms).history, done + ms)
    decreases |ms|
  {
    MessagesShift(done, ms);
    if ms != [] {
      var s', h' := RunNext(s, h, done, ms);
      RunKeepsStores(s', h', done + [ms[0]], ms[1..]);
    }
  }

  /** After any run from the start, every queue entry carries the rate of its client's last request. */
  lemma LastRequestIsQueued(ms: seq<Message>, i: nat)
    requires Valid(InitServer(), InitHistory()) && AllowedRun(InitServer(), InitHistory(), ms)
    requires i < |After(InitServer(), InitHistory(), ms).server.queue|
    ensures var e := After(InitServer(), InitHistory(), ms).server.queue[i];
      Registered(ms, e.pid) && LastAsk(ms, e.pid).Some? && e.rate == LastAsk(ms, e.pid).value.rate
  {
    RunKeepsStores(InitServer(), InitHistory(), [], ms);
    assert [] + ms == ms;
    assert EntryStores(After(InitServer(), InitHistory(), ms).server.queue[i], ms);
  }

  /**
   After any run from the start, a finish grants the waiting client that asked with the least
   rate, and among those the one that asked first.
   */
  lemma FinishGrantsLeastAsked(ms: seq<Message>, m: Message)
    requires Valid(InitServer(), InitHistory()) && AllowedRun(InitServer(), InitHistory(), ms)
    requires var end := After(InitServer(), InitHistory(), ms);
      Allowed(end.history, m) && m.Finish? && Registered(ms, m.pid) && end.server.queue != []
    ensures var end := After(InitServer(), InitHistory(), ms);
      && Consistent(end.server) && Handle(end.server, m).sent.Some?
      && var w := Handle(end.server, m).sent.value.pid;
      && w in Pids(end.server.queue)
      && forall p :: p in Pids(end.server.queue) && p != w ==> Precedes(ms, w, p)
  {
    var end := After(InitServer(), InitHistory(), ms);
    RunKeepsStores(InitServer(), InitHistory(), [], ms);
    assert [] + ms == ms;
    FinishGrantsLeastRate(end.server, end.history, m);
    assert end.server.queue[0].pid in Pids(end.server.queue);
  }
}
