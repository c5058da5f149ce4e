/**
 The arbiter of monitor/monitor.cpp as its clients see it: what it stores of a client is that
 client's last request, and whom it serves follows from the requests alone.
 */
module PriorityRequests {
  import opened ArbiterSpec
  import opened Doubles
  import opened PriorityMonitor
  import opened Requests

  // ---------------------------------------------------------------- what is stored

  ghost predicate ClientStores(c: Client, ask: Option<Ask>) {
    c.priIndex == 1 && c.lastHr == (if ask.Some? then ask.value.rate else 0.0) && c.lastTs == (if ask.Some? then ask.value.ts else 0)
  }

  /** The server stores what the messages say, and waiting clients have current priorities. */
  ghost predicate Stores(s: Server, ms: seq<Message>) {
    && (forall p :: p in s.clients <==> Registered(ms, p))
    && (forall p :: p in s.clients ==> ClientStores(s.clients[p], LastAsk(ms, p)))
    && (forall p :: p in s.queue ==> Waits(s, ms, p))
  }

  ghost predicate Waits(s: Server, ms: seq<Message>, p: Pid) {
    p in s.clients && LastAsk(ms, p).Some? && s.clients[p].priority == PriorityAt(s.clients[p], LastTime(ms))
  }

  lemma GateKeepsStores(s: Server, ms: seq<Message>, m: Message)
    requires Consistent(s) && Stores(s, ms) && m.Gate? && m.pid !in s.queue
    requires forall p :: p in s.clients ==> p > 0
    ensures Handle(s, m).Next? && Stores(Handle(s, m).server, ms + [m])
  {
    OneMoreForAll(ms, m);
  }

  /** The asking client's request is stored, the others' stay. */
  lemma RequestIsStored(s: Server, ms: seq<Message>, m: Message, p: Pid)
    requires Stores(s, ms) && Accepts(s, m)
    ensures var t := HandleRequest(s, m.pid, m.ts, m.rate).0;
      (p in t.clients <==> Registered(ms + [m], p)) && (p in t.clients ==> ClientStores(t.clients[p], LastAsk(ms + [m], p)))
  {
    OneMoreMessage(ms, m, p);
  }

  /** Waiting clients' priorities are refreshed. */
  lemma RequestRefreshes(s: Server, ms: seq<Message>, m: Message, p: Pid)
    requires Stores(s, ms) && Accepts(s, m) && (p in s.queue || p == m.pid)
    ensures Waits(HandleRequest(s, m.pid, m.ts, m.rate).0, ms + [m], p)
  {
    OneMoreMessage(ms, m, p);
    OneMoreMessage(ms, m, m.pid);
  }

  lemma RequestKeepsStores(s: Server, ms: seq<Message>, m: Message)
    requires Consistent(s) && Stores(s, ms) && Accepts(s, m) && m.pid !in s.queue
    ensures Stores(HandleRequest(s, m.pid, m.ts, m.rate).0, ms + [m])
  {
    forall p: Pid
      ensures var t := HandleRequest(s, m.pid, m.ts, m.rate).0;
        (p in t.clients <==> Registered(ms + [m], p)) && (p in t.clients ==> ClientStores(t.clients[p], LastAsk(ms + [m], p)))
    {
      RequestIsStored(s, ms, m, p);
    }
    InsertShape(s.queue, m.pid);
    forall p | p in HandleRequest(s, m.pid, m.ts, m.rate).0.queue
      ensures Waits(HandleRequest(s, m.pid, m.ts, m.rate).0, ms + [m], p)
    {
      RequestRefreshes(s, ms, m, p);
    }
  }

  /** Serving a client changes its count only. */
  lemma ServingKeepsStores(s: Server, ms: seq<Message>, w: Pid, queue: seq<Pid>, busy: Pid, cnt: nat)
    requires Stores(s, ms) && w in s.clients && forall p :: p in queue ==> p in s.queue
    ensures Stores(Server(busy, queue, s.clients[w := s.clients[w].(cnt := cnt)]), ms)
  {
  }

  lemma FinishKeepsStores(s: Server, ms: seq<Message>)
    requires Consistent(s) && Stores(s, ms) && HandleFinish(s).Next?
    ensures Stores(HandleFinish(s).server, ms)
  {
    if s.busy != 0 && s.queue != [] {
      var w := Scan(s.queue, s.clients, SENTINEL).value;
      EraseShape(s.queue, w);
      ServingKeepsStores(s, ms, w, Erase(s.queue, w), w, s.clients[w].cnt + 1);
    }
  }

  /** A message that says nothing new leaves what is stored true. */
  lemma StoresStill(s: Server, ms: seq<Message>, m: Message)
    requires Stores(s, ms) && (m.Finish? || (m.Request? && m.pid !in s.clients))
    ensures Stores(s, ms + [m])
  {
    SaysNothing(ms, m);
  }

  lemma StepKeepsStores(sys: System, ms: seq<Message>, m: Message)
    requires Valid(sys) && Admissible(sys, m) && Stores(sys.server, ms)
    ensures Handle(sys.server, m).Next? && Valid(Advance(sys, m)) && Stores(Advance(sys, m).server, ms + [m])
  {
    AdvanceValid(sys, m);
    WaitersAreSilent(sys.server, sys.history, m);
    PidsArePositive(sys);
    var s := sys.server;
    if m.Gate? {
      GateKeepsStores(s, ms, m);
    } else if m.pid !in s.clients {
      StoresStill(s, ms, m);
    } else if m.Request? {
      RequestKeepsStores(s, ms, m);
    } else {
      FinishKeepsStores(s, ms);
      StoresStill(Handle(s, m).server, ms, m);
    }
  }

  lemma PidsArePositive(sys: System)
    requires Valid(sys)
    ensures forall p :: p in sys.server.clients ==> p > 0
  {
    assert forall p :: p in sys.server.clients ==> p in Abstract(sys.server).cnt;
  }

  lemma {:induction false} RunKeepsStores(sys: System, done: seq<Message>, ms: seq<Message>)
    requires Valid(sys) && AdmissibleRun(sys, ms) && Stores(sys.server, done)
    ensures Stores(After(sys, ms).server, done + ms)
    decreases |ms|
  {
    MessagesShift(done, ms);
    if ms != [] {
      StepKeepsStores(sys, done, ms[0]);
      RunKeepsStores(Advance(sys, ms[0]), done + [ms[0]], ms[1..]);
    }
  }

  /**
   After any run from the start, the registered clients are those that the messages register,
   and the rate and time stored of a client are those of its last request in the messages.
   */
  lemma LastRequestIsStored(ms: seq<Message>, p: Pid)
    requires Valid(Init()) && AdmissibleRun(Init(), ms)
    ensures var clients := After(Init(), ms).server.clients;
      && (p in clients <==> Registered(ms, p))
      && (p in clients && LastAsk(ms, p).Some? ==>
            clients[p].lastHr == LastAsk(ms, p).value.rate && clients[p].lastTs == LastAsk(ms, p).value.ts)
  {
    RunKeepsStores(Init(), [], ms);
    assert [] + ms == ms;
  }

  // ---------------------------------------------------------------- who is served

  /** The discounted rate of a client's last request, at the time of the last request of all. */
  function Discounted(ms: seq<Message>, p: Pid): Double
    requires LastAsk(ms, p).Some?
  {
    var ask := LastAsk(ms, p).value;
    Quotient(ask.rate, (1 + LastTime(ms) - ask.ts) as real)
  }

  lemma WaitsAtDiscount(s: Server, ms: seq<Message>, p: Pid)
    requires Stores(s, ms) && p in s.queue
    ensures p in s.clients && LastAsk(ms, p).Some? && s.clients[p].priority == Discounted(ms, p)
  {
  }

  /** w's last request is not discounted to more than p's, and on an exact tie w is the smaller pid. */
  ghost predicate ServedBefore(ms: seq<Message>, w: Pid, p: Pid) {
    && LastAsk(ms, w).Some? && LastAsk(ms, p).Some?
    && !Less(Discounted(ms, p), Discounted(ms, w))
    && (Discounted(ms, p) == Discounted(ms, w) ==> w <= p)
  }

  /**
   After any run from the start, with any times and rates, a finish that hands the GPU over
   grants a waiting client whose last request is discounted to less than the sentinel and to
   no more than that of any other waiting client.
   */
  lemma FinishGrantsLeastAsked(ms: seq<Message>, m: Message)
    requires Valid(Init()) && AdmissibleRun(Init(), ms)
    requires var end := After(Init(), ms);
      QueueRegistered(end.server) && Admissible(end, m) && m.Finish? && Registered(ms, m.pid) && end.server.queue != []
    ensures var end := After(Init(), ms);
      && Handle(end.server, m).Next? && Handle(end.server, m).sent.Some?
      && var w := Handle(end.server, m).sent.value.pid;
      && w in end.server.queue && LastAsk(ms, w).Some? && Less(Discounted(ms, w), Finite(9999999.0))
      && forall p :: p in end.server.queue ==> ServedBefore(ms, w, p)
  {
    RunKeepsValid(Init(), ms);
    RunKeepsStores(Init(), [], ms);
    assert [] + ms == ms;
    LeastIsServed(After(Init(), ms), ms, m);
  }

  lemma LeastIsServed(sys: System, ms: seq<Message>, m: Message)
    requires Valid(sys) && Stores(sys.server, ms) && Admissible(sys, m)
    requires m.Finish? && m.pid in sys.server.clients && sys.server.queue != []
    ensures Handle(sys.server, m).Next? && Handle(sys.server, m).sent.Some?
    ensures var w := Handle(sys.server, m).sent.value.pid;
      && w in sys.server.queue && LastAsk(ms, w).Some? && Less(Discounted(ms, w), Finite(9999999.0))
      && forall p :: p in sys.server.queue ==> ServedBefore(ms, w, p)
  {
    FinishGrantsLeast(sys, m);
    var s := sys.server;
    var w := Handle(s, m).sent.value.pid;
    WaitsAtDiscount(s, ms, w);
    forall p | p in s.queue
      ensures ServedBefore(ms, w, p)
    {
      WaitsAtDiscount(s, ms, p);
      assert NotBehind(s.clients, w, p);
    }
  }

  // ---------------------------------------------------------------- requests in order of time

  /** w's last request is discounted to at most p's, in real numbers; on a tie w is the smaller pid. */
  ghost predicate AgedBefore(ms: seq<Message>, w: Pid, p: Pid) {
    LastAsk(ms, w).Some? && LastAsk(ms, p).Some? &&
    var a, b, t := LastAsk(ms, w).value, LastAsk(ms, p).value, LastTime(ms);
    && a.ts <= t && b.ts <= t
    && a.rate / (1 + t - a.ts) as real <= b.rate / (1 + t - b.ts) as real
    && (a.rate / (1 + t - a.ts) as real == b.rate / (1 + t - b.ts) as real ==> w <= p)
  }

  lemma BeforeInOrder(ms: seq<Message>, w: Pid, p: Pid)
    requires InOrder(ms) && ServedBefore(ms, w, p)
    ensures AgedBefore(ms, w, p)
  {
    AskedInOrder(ms, w);
    AskedInOrder(ms, p);
  }

  /**
   When no request carries an earlier time than the one before it, a finish grants the waiting
   client of least rate / (1 + T - ts), where rate and ts are those of its last request and T
   is the time of the last request of all; an exact tie goes to the smaller pid.
   */
  lemma FinishInOrder(ms: seq<Message>, m: Message)
    requires Valid(Init()) && AdmissibleRun(Init(), ms) && InOrder(ms)
    requires var end := After(Init(), ms);
      QueueRegistered(end.server) && Admissible(end, m) && m.Finish? && Registered(ms, m.pid) && end.server.queue != []
    ensures var end := After(Init(), ms);
      && Handle(end.server, m).Next? && Handle(end.server, m).sent.Some?
      && var w := Handle(end.server, m).sent.value.pid;
      w in end.server.queue && forall p :: p in end.server.queue ==> AgedBefore(ms, w, p)
  {
    FinishGrantsLeastAsked(ms, m);
    var end := After(Init(), ms);
    var w := Handle(end.server, m).sent.value.pid;
    forall p | p in end.server.queue
      ensures AgedBefore(ms, w, p)
    {
      BeforeInOrder(ms, w, p);
    }
  }

  // ---------------------------------------------------------------- one run

  /** A client that last asked at time ts with this rate. */
  function Asked(cnt: nat, priority: real, ts: int, rate: real): Client {
    Client(cnt, Finite(priority), ts, rate, 1)
  }

  const START: Server := Server(0, [], map[1 := NEW_CLIENT, 2 := NEW_CLIENT, 3 := NEW_CLIENT])

  /** 1 has asked at time 1 with rate 1, been served and finished. */
  const ONE_DONE: Server := Server(0, [], map[1 := Asked(1, 1.0, 1, 1.0), 2 := NEW_CLIENT, 3 := NEW_CLIENT])

  /** 3 asks at time 2 with rate 10. */
  const THREE_SERVED: Server :=
    Server(3, [], map[1 := Asked(1, 0.5, 1, 1.0), 2 := NEW_CLIENT, 3 := Asked(1, 10.0, 2, 10.0)])

  /** 1 asks again, at time 3 with rate 30. */
  const ONE_WAITS: Server :=
    Server(3, [1], map[1 := Asked(1, 30.0, 3, 30.0), 2 := NEW_CLIENT, 3 := Asked(1, 5.0, 2, 10.0)])

  /** So does 2, with rate 5. */
  const BOTH_WAIT: Server :=
    Server(3, [1, 2], map[1 := Asked(1, 30.0, 3, 30.0), 2 := Asked(0, 5.0, 3, 5.0), 3 := Asked(1, 5.0, 2, 10.0)])

  lemma FirstRequest()
    ensures HandleRequest(START, 1, 1, 1.0) == (ONE_DONE.(busy := 1), Some(Grant(1, 0)))
  {
    assert Refreshed(START.clients, 1) == START.clients;
    assert HandleRequest(START, 1, 1, 1.0).0.clients == ONE_DONE.clients;
  }

  lemma SecondRequest()
    ensures HandleRequest(ONE_DONE, 3, 2, 10.0) == (THREE_SERVED, Some(Grant(3, 0)))
  {
    assert PriorityAt(ONE_DONE.clients[1], 2) == Finite(0.5);
    assert HandleRequest(ONE_DONE, 3, 2, 10.0).0.clients == THREE_SERVED.clients;
  }

  lemma ThirdRequest()
    ensures HandleRequest(THREE_SERVED, 1, 3, 30.0) == (ONE_WAITS, None)
  {
    assert PriorityAt(THREE_SERVED.clients[3], 3) == Finite(5.0) && Insert([], 1) == [1];
    assert HandleRequest(THREE_SERVED, 1, 3, 30.0).0.clients == ONE_WAITS.clients;
  }

  lemma FourthRequest()
    ensures HandleRequest(ONE_WAITS, 2, 3, 5.0) == (BOTH_WAIT, None)
  {
    assert PriorityAt(ONE_WAITS.clients[3], 3) == Finite(5.0) && PriorityAt(ONE_WAITS.clients[1], 3) == Finite(30.0);
    assert Insert([], 2) == [2] && [1][1..] == [] && Insert([1], 2) == [1, 2];
    assert HandleRequest(ONE_WAITS, 2, 3, 5.0).0.clients == BOTH_WAIT.clients;
  }

  lemma LastFinish()
    ensures QueueRegistered(BOTH_WAIT) && HandleFinish(BOTH_WAIT).Next? && HandleFinish(BOTH_WAIT).sent == Some(Grant(2, 0))
  {
    var c := BOTH_WAIT.clients;
    assert [2][1..] == [] && Scan([2], c, Finite(30.0)) == Some(2);
    assert [1, 2][1..] == [2] && Scan([1, 2], c, SENTINEL) == Some(2);
  }

  method ThreeRegistered() returns (monitor: Monitor)
    ensures fresh(monitor) && monitor.State() == START
  {
    monitor := new Monitor();
    monitor.ReceiveAtGate(1);
    monitor.ReceiveAtGate(2);
    monitor.ReceiveAtGate(3);
  }

  /** 2, who asks with rate 5, is served before 1, who asks with rate 30 and had asked with rate 1 before. */
  method ServeThree() returns (sent: Option<Grant>)
    ensures sent == Some(Grant(2, 0))
  {
    var monitor := ThreeRegistered();
    FirstRequest();
    sent := monitor.Receive(1, false, 1, 1.0);
    sent := monitor.Receive(1, true, 0, 0.0);
    assert monitor.State() == ONE_DONE;
    SecondRequest();
    sent := monitor.Receive(3, false, 2, 10.0);
    ThirdRequest();
    sent := monitor.Receive(1, false, 3, 30.0);
    FourthRequest();
    sent := monitor.Receive(2, false, 3, 5.0);
    LastFinish();
    sent := monitor.Receive(3, true, 0, 0.0);
  }
}
