/**
 The arbiter of monitor/monitor.cpp: it grants the GPU to the waiting client of least
 priority, where a priority is the client's last heart rate, discounted by the time since.

 Rates are exact reals and times whole seconds, as the integer division of a timestamp leaves
 them.  A priority is what a double holds: a division by zero makes it infinite or no number,
 and the server goes on.  The mutex of the two threads makes each message atomic.
 */
module PriorityMonitor {
  import opened ArbiterSpec
  import opened Doubles
  import opened Numbers

  datatype Client = Client(cnt: nat, priority: Double, lastTs: int, lastHr: real, priIndex: Positive)

  /** A freshly registered client. */
  const NEW_CLIENT := Client(0, Finite(0.0), 0, 0.0, 1)

  /** The bound of the scan: priorities that reach it are never picked. */
  const LIMIT: real := 9999999.0
  const SENTINEL: Double := Finite(LIMIT)

  datatype Server = Server(busy: Pid, queue: seq<Pid>, clients: map<Pid, Client>)

  // ---------------------------------------------------------------- the queue, a multimap keyed by pid

  /** Insertion behind all entries with keys up to pid. */
  function Insert(queue: seq<Pid>, pid: Pid): seq<Pid> {
    if queue == [] || pid < queue[0] then [pid] + queue
    else [queue[0]] + Insert(queue[1..], pid)
  }

  /** Erasure by key: every entry with that key goes. */
  function Erase(queue: seq<Pid>, pid: Pid): seq<Pid> {
    if queue == [] then []
    else if queue[0] == pid then Erase(queue[1..], pid)
    else [queue[0]] + Erase(queue[1..], pid)
  }

  ghost predicate Ascending(queue: seq<Pid>) {
    forall i, j :: 0 <= i < j < |queue| ==> queue[i] < queue[j]
  }

  function Elements(queue: seq<Pid>): set<Pid> {
    set p | p in queue
  }

  lemma {:induction false} InsertShape(queue: seq<Pid>, pid: Pid)
    requires Ascending(queue) && pid !in queue
    ensures Ascending(Insert(queue, pid))
    ensures forall p :: p in Insert(queue, pid) <==> p in queue || p == pid
  {
    if queue == [] || pid < queue[0] {
    } else {
      var rest := queue[1..];
      assert queue == [queue[0]] + rest;
      InsertShape(rest, pid);
      var t := Insert(rest, pid);
      forall i, j | 0 <= i < j < |[queue[0]] + t|
        ensures ([queue[0]] + t)[i] < ([queue[0]] + t)[j]
      {
        assert t[j - 1] in t;
      }
    }
  }

  lemma {:induction false} EraseShape(queue: seq<Pid>, pid: Pid)
    requires Ascending(queue)
    ensures Ascending(Erase(queue, pid))
    ensures forall p :: p in Erase(queue, pid) <==> p in queue && p != pid
    ensures pid in queue ==> |Erase(queue, pid)| == |queue| - 1
    ensures pid !in queue ==> Erase(queue, pid) == queue
  {
    if queue != [] {
      var rest := queue[1..];
      assert queue == [queue[0]] + rest;
      EraseShape(rest, pid);
      var t := Erase(rest, pid);
      forall i, j | 0 <= i < j < |[queue[0]] + t|
        ensures ([queue[0]] + t)[i] < ([queue[0]] + t)[j]
      {
        assert t[j - 1] in t;
      }
    }
  }

  // ---------------------------------------------------------------- choosing a client

  /** The scan over the queue: the first entry with the least priority below the bound. */
  function Scan(queue: seq<Pid>, clients: map<Pid, Client>, bound: Double): Option<Pid>
    requires forall i :: 0 <= i < |queue| ==> queue[i] in clients
  {
    if queue == [] then None
    else
      assert queue[0] in queue;
      var head := clients[queue[0]].priority;
      if Less(head, bound) then
        var later := Scan(queue[1..], clients, head);
        if later.Some? then later else Some(queue[0])
      else Scan(queue[1..], clients, bound)
  }

  /** w is queued with the least priority, below the bound, and is the smallest pid among those
      that have it. */
  ghost predicate IsLeast(w: Pid, queue: seq<Pid>, clients: map<Pid, Client>, bound: Double)
    requires forall i :: 0 <= i < |queue| ==> queue[i] in clients
  {
    && w in queue && w in clients && Less(clients[w].priority, bound)
    && forall i :: 0 <= i < |queue| ==> NotBehind(clients, w, queue[i])
  }

  predicate NotBehind(clients: map<Pid, Client>, w: Pid, p: Pid)
    requires w in clients && p in clients
  {
    !Less(clients[p].priority, clients[w].priority) && (clients[p].priority == clients[w].priority ==> w <= p)
  }

  lemma LeastOfRest(w: Pid, queue: seq<Pid>, clients: map<Pid, Client>, bound: Double)
    requires forall i :: 0 <= i < |queue| ==> queue[i] in clients
    requires queue != [] && IsLeast(w, queue[1..], clients, bound) && NotBehind(clients, w, queue[0])
    ensures IsLeast(w, queue, clients, bound)
  {
    forall i | 0 <= i < |queue|
      ensures NotBehind(clients, w, queue[i])
    {
      assert i > 0 ==> queue[i] == queue[1..][i - 1];
    }
  }

  lemma LeastIsHead(queue: seq<Pid>, clients: map<Pid, Client>, bound: Double)
    requires forall i :: 0 <= i < |queue| ==> queue[i] in clients
    requires Ascending(queue) && queue != [] && Less(clients[queue[0]].priority, bound)
    requires forall p :: p in queue[1..] ==> !Less(clients[p].priority, clients[queue[0]].priority)
    ensures IsLeast(queue[0], queue, clients, bound)
  {
    forall i | 0 <= i < |queue|
      ensures NotBehind(clients, queue[0], queue[i])
    {
      assert i > 0 ==> queue[i] in queue[1..];
    }
  }

  /** A lower bound is met by less. */
  lemma LeastBelow(w: Pid, queue: seq<Pid>, clients: map<Pid, Client>, low: Double, bound: Double)
    requires forall i :: 0 <= i < |queue| ==> queue[i] in clients
    requires IsLeast(w, queue, clients, low) && Less(low, bound)
    ensures IsLeast(w, queue, clients, bound)
  {
  }

  /** The scan finds a client of least priority, the one with the smallest pid among equals. */
  lemma {:induction false} ScanPicksLeast(queue: seq<Pid>, clients: map<Pid, Client>, bound: Double)
    requires forall i :: 0 <= i < |queue| ==> queue[i] in clients
    requires Ascending(queue)
    ensures Scan(queue, clients, bound).Some? ==> IsLeast(Scan(queue, clients, bound).value, queue, clients, bound)
  {
    if queue != [] {
      var rest, head := queue[1..], clients[queue[0]].priority;
      var low := if Less(head, bound) then head else bound;
      ScanPicksLeast(rest, clients, low);
      ScanFindsIff(rest, clients, low);
      if Scan(rest, clients, low).Some? {
        LeastOfRest(Scan(rest, clients, low).value, queue, clients, low);
        if Less(head, bound) {
          LeastBelow(Scan(rest, clients, low).value, queue, clients, head, bound);
        }
      } else if Less(head, bound) {
        LeastIsHead(queue, clients, bound);
      }
    }
  }

  /** It finds none exactly when no priority is below the bound. */
  lemma {:induction false} ScanFindsIff(queue: seq<Pid>, clients: map<Pid, Client>, bound: Double)
    requires forall i :: 0 <= i < |queue| ==> queue[i] in clients
    ensures Scan(queue, clients, bound).None? <==> forall p :: p in queue ==> !Less(clients[p].priority, bound)
  {
    if queue != [] {
      assert queue[0] in queue && queue == [queue[0]] + queue[1..];
      var head := clients[queue[0]].priority;
      ScanFindsIff(queue[1..], clients, if Less(head, bound) then head else bound);
    }
  }

  // ---------------------------------------------------------------- priorities

  /** The priority at time ts of a client that last asked at lastTs with rate lastHr. */
  function PriorityAt(c: Client, ts: int): Double {
    Divided(Quotient(c.lastHr, (1 + ts - c.lastTs) as real), c.priIndex)
  }

  /** The update of all priorities on a request. */
  function Refreshed(clients: map<Pid, Client>, ts: int): map<Pid, Client> {
    map p | p in clients :: clients[p].(priority := PriorityAt(clients[p], ts))
  }

  /** The requesting client itself is then set from its current rate. */
  function Recorded(c: Client, ts: int, rate: real): Client {
    c.(priority := Divided(Finite(rate), c.priIndex), lastTs := ts, lastHr := rate)
  }

  // ---------------------------------------------------------------- handling one message

  /** What handling a message leads to; Undefined when the scan finds no client and the code
      reads a pointer it never set. */
  datatype Outcome = Next(server: Server, sent: Option<Grant>) | Undefined

  /** A request that the server will handle. */
  predicate Accepts(s: Server, m: Message) {
    m.Request? && m.pid > 0 && m.pid in s.clients
  }

  predicate QueueRegistered(s: Server) {
    forall i :: 0 <= i < |s.queue| ==> s.queue[i] in s.clients
  }

  function HandleRequest(s: Server, pid: Pid, ts: int, rate: real): (Server, Option<Grant>)
    requires pid in s.clients
  {
    var refreshed := Refreshed(s.clients, ts);
    var c := Recorded(refreshed[pid], ts, rate);
    if s.busy == 0 then
      (Server(pid, s.queue, refreshed[pid := c.(cnt := c.cnt + 1)]), Some(Grant(pid, c.cnt)))
    else
      (Server(s.busy, Insert(s.queue, pid), refreshed[pid := c]), None)
  }

  function HandleFinish(s: Server): Outcome
    requires QueueRegistered(s)
  {
    if s.busy == 0 then Next(s, None)
    else if s.queue == [] then Next(s.(busy := 0), None)
    else
      match Scan(s.queue, s.clients, SENTINEL)
      case None => Undefined
      case Some(w) =>
        if w !in s.clients then Undefined
        else
          var c := s.clients[w];
          Next(Server(w, Erase(s.queue, w), s.clients[w := c.(cnt := c.cnt + 1)]), Some(Grant(w, c.cnt)))
  }

  function Handle(s: Server, m: Message): Outcome
    requires QueueRegistered(s)
  {
    if m.pid <= 0 then Next(s, None)
    else match m
      case Gate(pid) =>
        Next(s.(clients := if pid in s.clients then s.clients - {pid} else s.clients[pid := NEW_CLIENT]), None)
      case Request(pid, ts, rate) =>
        if pid !in s.clients then Next(s, None)
        else var (t, sent) := HandleRequest(s, pid, ts, rate); Next(t, sent)
      case Finish(pid) =>
        if pid !in s.clients then Next(s, None) else HandleFinish(s)
  }

  // ---------------------------------------------------------------- which messages are handled

  /** What every handled message keeps. */
  ghost predicate Consistent(s: Server) {
    Ascending(s.queue) && QueueRegistered(s) && forall p :: p in s.clients ==> s.clients[p].priIndex == 1
  }

  /** Some waiting client has a priority below the sentinel. */
  predicate SomeBelow(s: Server)
    requires QueueRegistered(s)
  {
    exists i :: 0 <= i < |s.queue| && Less(s.clients[s.queue[i]].priority, SENTINEL)
  }

  /** A finish that hands the GPU over. */
  predicate HandsOver(s: Server, m: Message) {
    m.Finish? && m.pid > 0 && m.pid in s.clients && s.busy != 0 && s.queue != []
  }

  /** What a message needs: a finish, that not all waiting clients have priorities which are
      infinite, no number, or at or above the sentinel. */
  predicate Runnable(s: Server, m: Message)
    requires QueueRegistered(s)
  {
    HandsOver(s, m) ==> SomeBelow(s)
  }

  /** A finish with a waiting client finds a winner exactly when some waiting client's priority
      is below the sentinel; the winner has the least priority. */
  lemma FinishFindsWinner(s: Server)
    requires Consistent(s)
    ensures Scan(s.queue, s.clients, SENTINEL).Some? <==> SomeBelow(s)
    ensures SomeBelow(s) ==> IsLeast(Scan(s.queue, s.clients, SENTINEL).value, s.queue, s.clients, SENTINEL)
  {
    ScanPicksLeast(s.queue, s.clients, SENTINEL);
    ScanFindsIff(s.queue, s.clients, SENTINEL);
    if SomeBelow(s) {
      var i :| 0 <= i < |s.queue| && Less(s.clients[s.queue[i]].priority, SENTINEL);
      assert s.queue[i] in s.queue;
    }
  }

  /** A message is handled, and not with the unset pointer, exactly when it is runnable. */
  lemma HandledIffRunnable(s: Server, m: Message)
    requires Consistent(s)
    ensures Runnable(s, m) <==> Handle(s, m).Next?
  {
    FinishFindsWinner(s);
  }

  // ---------------------------------------------------------------- refinement

  function Counts(clients: map<Pid, Client>): map<Pid, nat> {
    map p | p in clients :: clients[p].cnt
  }

  /** The abstract arbiter that a server stands for. */
  function Abstract(s: Server): Arbiter {
    Arbiter(s.busy, Elements(s.queue), Counts(s.clients))
  }

  lemma RequestKeepsConsistent(s: Server, m: Message)
    requires Consistent(s) && Accepts(s, m) && m.pid !in s.queue
    ensures Consistent(HandleRequest(s, m.pid, m.ts, m.rate).0)
  {
    InsertShape(s.queue, m.pid);
    var t := HandleRequest(s, m.pid, m.ts, m.rate).0;
    forall i | 0 <= i < |t.queue|
      ensures t.queue[i] in t.clients
    {
      assert t.queue[i] in t.queue;
    }
  }

  lemma FinishKeepsConsistent(s: Server)
    requires Consistent(s) && HandleFinish(s).Next?
    ensures Consistent(HandleFinish(s).server)
  {
    if s.busy != 0 && s.queue != [] {
      var w := Scan(s.queue, s.clients, SENTINEL).value;
      EraseShape(s.queue, w);
      var t := HandleFinish(s).server;
      forall i | 0 <= i < |t.queue|
        ensures t.queue[i] in t.clients
      {
        assert t.queue[i] in t.queue;
      }
    }
  }

  lemma ElementsSplit(queue: seq<Pid>)
    requires Ascending(queue) && queue != []
    ensures Elements(queue) == {queue[0]} + Elements(queue[1..]) && queue[0] !in Elements(queue[1..])
  {
    assert queue == [queue[0]] + queue[1..];
  }

  lemma {:induction false} ElementsCount(queue: seq<Pid>)
    requires Ascending(queue)
    ensures |Elements(queue)| == |queue|
  {
    if queue != [] {
      ElementsSplit(queue);
      ElementsCount(queue[1..]);
    }
  }

  /** The concrete request is a step of the abstract arbiter. */
  lemma RequestRefines(s: Server, m: Message)
    requires Consistent(s) && Accepts(s, m) && m.pid !in s.queue
    ensures var (t, sent) := HandleRequest(s, m.pid, m.ts, m.rate); Step(Abstract(s), m, Abstract(t), sent)
  {
    InsertShape(s.queue, m.pid);
    var (t, sent) := HandleRequest(s, m.pid, m.ts, m.rate);
    assert Elements(Insert(s.queue, m.pid)) == Elements(s.queue) + {m.pid};
    if s.busy == 0 {
      assert Counts(t.clients) == Counts(s.clients)[m.pid := Counts(s.clients)[m.pid] + 1];
    } else {
      assert Counts(t.clients) == Counts(s.clients);
    }
  }

  lemma FinishRefines(s: Server, m: Message)
    requires Consistent(s) && m.Finish? && m.pid > 0 && m.pid in s.clients && HandleFinish(s).Next?
    ensures Step(Abstract(s), m, Abstract(HandleFinish(s).server), HandleFinish(s).sent)
  {
    if s.busy != 0 && s.queue != [] {
      FinishFindsWinner(s);
      var w := Scan(s.queue, s.clients, SENTINEL).value;
      EraseShape(s.queue, w);
      var t := HandleFinish(s).server;
      assert t.queue == Erase(s.queue, w);
      assert w in Abstract(s).waiting;
      assert Elements(t.queue) == Elements(s.queue) - {w};
      assert Counts(t.clients) == Counts(s.clients)[w := Counts(s.clients)[w] + 1];
      assert Grants(Abstract(s), Abstract(s).waiting - {w}, w, Abstract(t), HandleFinish(s).sent);
    }
  }

  lemma GateRefines(s: Server, m: Message)
    requires Consistent(s) && m.Gate? && m.pid !in s.queue
    ensures Handle(s, m).Next? && Consistent(Handle(s, m).server)
    ensures Step(Abstract(s), m, Abstract(Handle(s, m).server), None)
  {
    var t := Handle(s, m).server;
    forall i | 0 <= i < |t.queue|
      ensures t.queue[i] in t.clients
    {
      assert t.queue[i] in s.queue;
    }
    assert m.pid > 0 && m.pid in s.clients ==> Counts(t.clients) == Counts(s.clients) - {m.pid};
    assert m.pid > 0 && m.pid !in s.clients ==> Counts(t.clients) == Counts(s.clients)[m.pid := 0];
  }

  /** Every runnable message, from any client that does not wait for the GPU, whoever holds it, at
      any time and with any rate, is a step of the abstract arbiter and keeps the server consistent;
      so is a finish from any client. */
  lemma HandleRefines(s: Server, m: Message)
    requires Consistent(s) && Runnable(s, m) && (m.Finish? || m.pid !in s.queue)
    ensures Handle(s, m).Next?
    ensures Consistent(Handle(s, m).server)
    ensures Step(Abstract(s), m, Abstract(Handle(s, m).server), Handle(s, m).sent)
  {
    HandledIffRunnable(s, m);
    if m.Gate? {
      GateRefines(s, m);
    } else if m.Request? {
      if Accepts(s, m) {
        RequestKeepsConsistent(s, m);
        RequestRefines(s, m);
      }
    } else if m.pid > 0 && m.pid in s.clients {
      FinishKeepsConsistent(s);
      FinishRefines(s, m);
    }
  }

  /** Under the client protocol who waits neither asks nor closes. */
  lemma WaitersAreSilent(s: Server, h: History, m: Message)
    requires Safe(Abstract(s), h) && Allowed(h, m)
    ensures m.pid !in s.queue
  {
    assert m.pid !in Abstract(s).waiting;
  }

  // ---------------------------------------------------------------- whole runs

  datatype System = System(server: Server, history: History)

  ghost predicate Valid(sys: System) {
    Consistent(sys.server) && Safe(Abstract(sys.server), sys.history)
  }

  function Init(): System {
    System(Server(0, [], map[]), InitHistory())
  }

  lemma InitValid()
    ensures Valid(Init())
  {
    InitSafe();
    assert Abstract(Init().server) == InitArbiter();
  }

  predicate Admissible(sys: System, m: Message)
    requires QueueRegistered(sys.server)
  {
    Allowed(sys.history, m) && Runnable(sys.server, m)
  }

  /** The system after an admissible message. */
  function Advance(sys: System, m: Message): System
    requires QueueRegistered(sys.server) && Handle(sys.server, m).Next?
  {
    var o := Handle(sys.server, m);
    System(o.server, Observed(sys.history, m, o.sent))
  }

  lemma AdvanceValid(sys: System, m: Message)
    requires Valid(sys) && Admissible(sys, m)
    ensures Handle(sys.server, m).Next? && Valid(Advance(sys, m))
  {
    WaitersAreSilent(sys.server, sys.history, m);
    HandleRefines(sys.server, m);
    StepKeepsSafe(Abstract(sys.server), sys.history, m,
                  Abstract(Handle(sys.server, m).server), Handle(sys.server, m).sent);
  }

  /** A sequence of messages that the clients allow from sys on, each handled without
      the unset pointer. */
  ghost predicate AdmissibleRun(sys: System, ms: seq<Message>)
    requires Valid(sys)
    decreases |ms|
  {
    ms == [] || (Admissible(sys, ms[0]) && (AdvanceValid(sys, ms[0]); AdmissibleRun(Advance(sys, ms[0]), ms[1..])))
  }

  ghost function After(sys: System, ms: seq<Message>): System
    requires Valid(sys) && AdmissibleRun(sys, ms)
    decreases |ms|
  {
    if ms == [] then sys
    else
      AdvanceValid(sys, ms[0]);
      After(Advance(sys, ms[0]), ms[1..])
  }

  /** Some message of the run makes the server grant the GPU to p. */
  ghost predicate GrantsTo(sys: System, ms: seq<Message>, p: Pid)
    requires Valid(sys) && AdmissibleRun(sys, ms)
    decreases |ms|
  {
    ms != [] &&
    (AdvanceValid(sys, ms[0]);
     var sent := Handle(sys.server, ms[0]).sent;
     (sent.Some? && sent.value.pid == p) || GrantsTo(Advance(sys, ms[0]), ms[1..], p))
  }

  lemma {:induction false} RunKeepsValid(sys: System, ms: seq<Message>)
    requires Valid(sys) && AdmissibleRun(sys, ms)
    ensures Valid(After(sys, ms))
    decreases |ms|
  {
    if ms != [] {
      AdvanceValid(sys, ms[0]);
      RunKeepsValid(Advance(sys, ms[0]), ms[1..]);
    }
  }

  /** After any run from the start: one grant at a time, a free GPU only when nobody waits,
      every queued client registered and queued once, and exact accounts. */
  lemma EveryRunIsSafe(ms: seq<Message>)
    requires Valid(Init()) && AdmissibleRun(Init(), ms)
    ensures var end := After(Init(), ms);
      && Safe(Abstract(end.server), end.history) && Consistent(end.server)
      && end.history.accepted == end.history.granted + |end.server.queue|
      && (end.server.busy == 0 ==> end.server.queue == [])
      && end.server.busy !in end.server.queue
  {
    RunKeepsValid(Init(), ms);
    RequestsAreConserved(After(Init(), ms));
  }

  /** Requests accepted are grants sent plus the clients in the queue, each queued once. */
  lemma RequestsAreConserved(sys: System)
    requires Valid(sys)
    ensures sys.history.accepted == sys.history.granted + |sys.server.queue|
    ensures sys.history.granted == sys.history.finished + (if sys.server.busy != 0 then 1 else 0)
    ensures sys.server.busy == 0 ==> sys.server.queue == []
    ensures sys.server.busy !in sys.server.queue
  {
    ElementsCount(sys.server.queue);
    assert sys.server.busy !in Abstract(sys.server).waiting;
    if sys.server.queue != [] {
      assert sys.server.queue[0] in Abstract(sys.server).waiting;
    }
  }

  /** A finish hands the GPU to the waiting client of least priority, the smallest pid among
      equals, and removes exactly that client from the queue. */
  lemma FinishGrantsLeast(sys: System, m: Message)
    requires Valid(sys) && Admissible(sys, m) && m.Finish? && m.pid in sys.server.clients && sys.server.queue != []
    ensures Handle(sys.server, m).Next? && Handle(sys.server, m).sent.Some?
    ensures var w := Handle(sys.server, m).sent.value.pid; var q := sys.server.queue;
      && IsLeast(w, q, sys.server.clients, SENTINEL)
      && (forall p :: p in Handle(sys.server, m).server.queue <==> p in q && p != w)
      && |Handle(sys.server, m).server.queue| == |q| - 1
  {
    RequestsAreConserved(sys);
    AdvanceValid(sys, m);
    FinishFindsWinner(sys.server);
    EraseShape(sys.server.queue, Handle(sys.server, m).sent.value.pid);
  }

  // ---------------------------------------------------------------- runs that cannot get stuck

  /** All waiting clients have priorities below the sentinel. */
  predicate AllBelow(s: Server)
    requires QueueRegistered(s)
  {
    forall i :: 0 <= i < |s.queue| ==> Less(s.clients[s.queue[i]].priority, SENTINEL)
  }

  /** A handled request leaves waiting clients below the sentinel. */
  predicate Measured(s: Server, m: Message)
    requires QueueRegistered(s)
  {
    Accepts(s, m) ==>
      && (forall i :: 0 <= i < |s.queue| ==> Less(PriorityAt(s.clients[s.queue[i]], m.ts), SENTINEL))
      && (s.busy != 0 ==> m.rate < LIMIT)
  }

  /** Measured messages are always handled, and stay so: no clock is needed. */
  lemma MeasuredIsRunnable(sys: System, m: Message)
    requires Valid(sys) && AllBelow(sys.server) && Allowed(sys.history, m) && Measured(sys.server, m)
    ensures Runnable(sys.server, m)
    ensures Handle(sys.server, m).Next? && Valid(Advance(sys, m))
    ensures AllBelow(Advance(sys, m).server)
  {
    var s := sys.server;
    if m.Finish? && s.queue != [] {
      assert Less(s.clients[s.queue[0]].priority, SENTINEL);
    }
    AdvanceValid(sys, m);
    MeasuredStaysBelow(s, m);
  }

  lemma MeasuredStaysBelow(s: Server, m: Message)
    requires Consistent(s) && AllBelow(s) && Measured(s, m) && Handle(s, m).Next?
    requires Consistent(Handle(s, m).server)
    requires m.Finish? || m.pid !in s.queue
    ensures AllBelow(Handle(s, m).server)
  {
    var t := Handle(s, m).server;
    forall i | 0 <= i < |t.queue|
      ensures Less(t.clients[t.queue[i]].priority, SENTINEL)
    {
      assert t.queue[i] in t.queue;
      if Accepts(s, m) {
        InsertShape(s.queue, m.pid);
      } else if m.Finish? && s.queue != [] && s.busy != 0 && m.pid > 0 && m.pid in s.clients {
        EraseShape(s.queue, Scan(s.queue, s.clients, SENTINEL).value);
      }

    }
  }

  /** A run whose requests are all measured. */
  ghost predicate MeasuredRun(sys: System, ms: seq<Message>)
    requires Valid(sys) && AllBelow(sys.server)
    decreases |ms|
  {
    ms == [] ||
    (Allowed(sys.history, ms[0]) && Measured(sys.server, ms[0]) &&
     (MeasuredIsRunnable(sys, ms[0]); MeasuredRun(Advance(sys, ms[0]), ms[1..])))
  }

  /** Such a run never uses the unset pointer. */
  lemma {:induction false} MeasuredRunIsAdmissible(sys: System, ms: seq<Message>)
    requires Valid(sys) && AllBelow(sys.server) && MeasuredRun(sys, ms)
    ensures AdmissibleRun(sys, ms) && Valid(After(sys, ms)) && AllBelow(After(sys, ms).server)
    decreases |ms|
  {
    if ms != [] {
      MeasuredIsRunnable(sys, ms[0]);
      MeasuredRunIsAdmissible(Advance(sys, ms[0]), ms[1..]);
    }
  }

  // ---------------------------------------------------------------- the imperative server

  lemma SameMap(m: map<Pid, Client>, n: map<Pid, Client>)
    requires m.Keys == n.Keys && forall p :: p in n ==> m[p] == n[p]
    ensures m == n
  {
  }

  /** The map of registered clients that both threads share, with the state of the monitor thread. */
  class Monitor {
    var busy: Pid
    var clientsTaskQueue: seq<Pid>
    var clientsMap: map<Pid, Client>

    function State(): Server
      reads this
    {
      Server(busy, clientsTaskQueue, clientsMap)
    }

    constructor ()
      ensures State() == Init().server
    {
      busy, clientsTaskQueue, clientsMap := 0, [], map[];
    }

    /** The gate thread: the first message of a pid registers it, the next one removes it. */
    method ReceiveAtGate(pid: Pid)
      requires QueueRegistered(State())
      modifies this
      ensures Next(State(), None) == Handle(old(State()), Gate(pid))
    {
      if pid > 0 {
        if pid !in clientsMap {
          clientsMap := clientsMap[pid := NEW_CLIENT];
        } else {
          clientsMap := clientsMap - {pid};
        }
      }
    }

    /** The monitor thread. */
    method Receive(pid: Pid, finished: bool, ts: int, rate: real) returns (sent: Option<Grant>)
      requires var m := if finished then Finish(pid) else Request(pid, ts, rate);
        QueueRegistered(State()) && Handle(State(), m).Next?
      modifies this
      ensures var m := if finished then Finish(pid) else Request(pid, ts, rate);
        Next(State(), sent) == Handle(old(State()), m)
    {
      sent := None;
      if pid > 0 && pid in clientsMap {
        if !finished {
          RecordRequest(pid, ts, rate);
        }
        if busy == 0 {
          if !finished {
            sent := Send(pid);
          }
        } else if finished {
          if clientsTaskQueue == [] {
            busy := 0;
          } else {
            var winner := PickWinner();
            sent := Send(winner);
            clientsTaskQueue := Erase(clientsTaskQueue, winner);
          }
        } else {
          clientsTaskQueue := Insert(clientsTaskQueue, pid);
        }
      }
    }

    /** Refresh all priorities, then set the requesting client's from its current rate. */
    method RecordRequest(pid: Pid, ts: int, rate: real)
      requires pid in clientsMap
      modifies this`clientsMap
      ensures clientsMap == Refreshed(old(clientsMap), ts)[pid := Recorded(Refreshed(old(clientsMap), ts)[pid], ts, rate)]
    {
      UpdatePriorities(ts);
      var c := clientsMap[pid];
      clientsMap := clientsMap[pid := c.(priority := Divided(Finite(rate), c.priIndex), lastTs := ts, lastHr := rate)];
    }

    /** Recompute the priority of every registered client. */
    method UpdatePriorities(ts: int)
      modifies this`clientsMap
      ensures clientsMap == Refreshed(old(clientsMap), ts)
    {
      ghost var before, target := clientsMap, Refreshed(clientsMap, ts);
      var todo := clientsMap.Keys;
      while todo != {}
        invariant todo <= clientsMap.Keys == before.Keys
        invariant forall p :: p in before ==> clientsMap[p] == (if p in todo then before[p] else target[p])
        decreases |todo|
      {
        var p :| p in todo;
        var c := clientsMap[p];
        clientsMap := clientsMap[p := c.(priority := PriorityAt(c, ts))];
        todo := todo - {p};
      }
      SameMap(clientsMap, target);
    }

    /** Send a client its next grant; it holds the GPU from then on. */
    method Send(pid: Pid) returns (sent: Option<Grant>)
      requires pid in clientsMap
      modifies this`busy, this`clientsMap
      ensures busy == pid
      ensures var c := old(clientsMap)[pid];
        sent == Some(Grant(pid, c.cnt)) && clientsMap == old(clientsMap)[pid := c.(cnt := c.cnt + 1)]
    {
      var c := clientsMap[pid];
      sent := Some(Grant(pid, c.cnt));
      clientsMap := clientsMap[pid := c.(cnt := c.cnt + 1)];
      busy := pid;
    }

    /** Scan the queue for the least priority below the sentinel. */
    method PickWinner() returns (pidToRun: Pid)
      requires forall i :: 0 <= i < |clientsTaskQueue| ==> clientsTaskQueue[i] in clientsMap
      requires Scan(clientsTaskQueue, clientsMap, SENTINEL).Some?
      ensures Some(pidToRun) == Scan(clientsTaskQueue, clientsMap, SENTINEL)
    {
      pidToRun := 0;
      var smallest := SENTINEL;
      var i := 0;
      ghost var winner := Scan(clientsTaskQueue, clientsMap, SENTINEL);
      while i < |clientsTaskQueue|
        invariant 0 <= i <= |clientsTaskQueue|
        invariant var rest := Scan(clientsTaskQueue[i..], clientsMap, smallest);
          winner == if rest.Some? then rest else Some(pidToRun)
      {
        var c := clientsMap[clientsTaskQueue[i]];
        assert clientsTaskQueue[i..][1..] == clientsTaskQueue[i + 1..];
        if Less(c.priority, smallest) {
          pidToRun := clientsTaskQueue[i];
          smallest := c.priority;
        }
        i := i + 1;
      }
    }
  }
}
