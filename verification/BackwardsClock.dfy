/**
 The arbiter of monitor/monitor.cpp takes the time of a request from the heartbeat record of
 the client that asks, not from a clock of its own.  Here that time may run backwards: when a
 finish then finds no winner, and a run that follows the client protocol and comes to it.
 */
module BackwardsClock {
  import opened ArbiterSpec
  import opened Doubles
  import opened PriorityAgeing
  import opened PriorityMonitor

  // ---------------------------------------------------------------- which priorities are never picked

  lemma BelowNumerator(u: real, d: int)
    requires u >= 0.0 && d != 0
    ensures u / d as real <= u
  {
    if d > 0 {
      QuotientDominates(u, d as real, u, 1.0);
    } else {
      NotPositive(u, d as real);
    }
  }

  lemma NotPositive(u: real, d: real)
    requires u >= 0.0 && d < 0.0
    ensures u / d <= 0.0
  {
    var q := u / d;
    assert q * d == u;
    if q > 0.0 {
      ProductPositive(q, -d);
    }
  }

  /** At time ts the scan passes over a client exactly when it last asked one second later. */
  lemma PassedOverIff(c: Client, ts: int)
    requires c.priIndex == 1 && 0.0 <= c.lastHr < LIMIT
    ensures !Less(PriorityAt(c, ts), SENTINEL) <==> c.lastTs == ts + 1
  {
    if c.lastTs != ts + 1 {
      BelowNumerator(c.lastHr, 1 + ts - c.lastTs);
    }
  }

  // ---------------------------------------------------------------- priorities over whole runs

  predicate RateInRange(s: Server, m: Message) {
    Accepts(s, m) ==> 0.0 <= m.rate < LIMIT
  }

  /** The time of the last handled request. */
  function LastTime(s: Server, m: Message, last: int): int {
    if Accepts(s, m) then m.ts else last
  }

  /** Rates are in range, and waiting clients have the priorities of the last handled request. */
  ghost predicate Rated(s: Server, last: int) {
    && (forall p :: p in s.clients ==> 0.0 <= s.clients[p].lastHr < LIMIT)
    && (forall p :: p in s.queue ==> p in s.clients && s.clients[p].priority == PriorityAt(s.clients[p], last))
  }

  /** All waiting clients last asked one second after time last. */
  ghost predicate AllOneLater(s: Server, last: int) {
    forall p :: p in s.queue ==> p in s.clients && s.clients[p].lastTs == last + 1
  }

  lemma RequestKeepsRated(s: Server, m: Message, last: int)
    requires Consistent(s) && Accepts(s, m) && m.pid !in s.queue && Rated(s, last) && RateInRange(s, m)
    ensures Rated(HandleRequest(s, m.pid, m.ts, m.rate).0, m.ts)
  {
    InsertShape(s.queue, m.pid);
  }

  lemma FinishKeepsRated(s: Server, last: int)
    requires Consistent(s) && Rated(s, last) && HandleFinish(s).Next?
    ensures Rated(HandleFinish(s).server, last)
  {
    if s.busy != 0 && s.queue != [] {
      EraseShape(s.queue, Scan(s.queue, s.clients, SENTINEL).value);
    }
  }

  lemma RatedStep(sys: System, m: Message, last: int)
    requires Valid(sys) && Admissible(sys, m) && Rated(sys.server, last) && RateInRange(sys.server, m)
    ensures Handle(sys.server, m).Next? && Valid(Advance(sys, m))
    ensures Rated(Advance(sys, m).server, LastTime(sys.server, m, last))
  {
    AdvanceValid(sys, m);
    var s := sys.server;
    assert m.pid in s.queue ==> m.pid in Abstract(s).waiting;
    if Accepts(s, m) {
      RequestKeepsRated(s, m, last);
    } else if m.Finish? && m.pid > 0 && m.pid in s.clients {
      FinishKeepsRated(s, last);
    }
  }

  /** All rates of a run are in range. */
  ghost predicate RatesInRange(sys: System, ms: seq<Message>)
    requires Valid(sys) && AdmissibleRun(sys, ms)
    decreases |ms|
  {
    ms == [] ||
    (RateInRange(sys.server, ms[0]) && (AdvanceValid(sys, ms[0]); RatesInRange(Advance(sys, ms[0]), ms[1..])))
  }

  /** The time of the last request that a run handled. */
  ghost function LastTimeAfter(sys: System, last: int, ms: seq<Message>): int
    requires Valid(sys) && AdmissibleRun(sys, ms)
    decreases |ms|
  {
    if ms == [] then last
    else
      AdvanceValid(sys, ms[0]);
      LastTimeAfter(Advance(sys, ms[0]), LastTime(sys.server, ms[0], last), ms[1..])
  }

  lemma {:induction false} RunKeepsRated(sys: System, last: int, ms: seq<Message>)
    requires Valid(sys) && AdmissibleRun(sys, ms) && RatesInRange(sys, ms) && Rated(sys.server, last)
    ensures Rated(After(sys, ms).server, LastTimeAfter(sys, last, ms))
    decreases |ms|
  {
    if ms != [] {
      RatedStep(sys, ms[0], last);
      RunKeepsRated(Advance(sys, ms[0]), LastTime(sys.server, ms[0], last), ms[1..]);
    }
  }

  /** Nobody waiting is below the sentinel exactly when all waiting clients asked one second late. */
  lemma NobodyBelowIff(s: Server, last: int)
    requires Consistent(s) && Rated(s, last)
    ensures !SomeBelow(s) <==> AllOneLater(s, last)
  {
    forall p | p in s.queue
      ensures p in s.clients
      ensures !Less(s.clients[p].priority, SENTINEL) <==> s.clients[p].lastTs == last + 1
    {
      PassedOverIff(s.clients[p], last);
    }
    forall i | 0 <= i < |s.queue|
      ensures s.queue[i] in s.queue
    {
    }
  }

  /**
   After any run from the start with rates from 0 up to the sentinel, whatever the times: a
   finish with waiting clients finds nobody, and uses the unset pointer, exactly when every
   waiting client last asked one second after the time of the last handled request.
   */
  lemma FindsNobodyIff(ms: seq<Message>, m: Message)
    requires Valid(Init()) && AdmissibleRun(Init(), ms) && RatesInRange(Init(), ms)
    requires HandsOver(After(Init(), ms).server, m)
    ensures Consistent(After(Init(), ms).server)
    ensures Handle(After(Init(), ms).server, m) == Undefined
            <==> AllOneLater(After(Init(), ms).server, LastTimeAfter(Init(), 0, ms))
  {
    RunKeepsValid(Init(), ms);
    RunKeepsRated(Init(), 0, ms);
    var s := After(Init(), ms).server;
    NobodyBelowIff(s, LastTimeAfter(Init(), 0, ms));
    HandledIffRunnable(s, m);
  }

  /** A request leaves every waiting client within reach of the scan exactly when none of them
      last asked one second after it. */
  lemma MeasuredIff(s: Server, last: int, m: Message)
    requires Consistent(s) && Rated(s, last) && RateInRange(s, m) && Accepts(s, m)
    ensures Measured(s, m) <==> forall p :: p in s.queue ==> p in s.clients && s.clients[p].lastTs != m.ts + 1
  {
    forall p | p in s.queue
      ensures p in s.clients
      ensures Less(PriorityAt(s.clients[p], m.ts), SENTINEL) <==> s.clients[p].lastTs != m.ts + 1
    {
      PassedOverIff(s.clients[p], m.ts);
    }
    forall i | 0 <= i < |s.queue|
      ensures s.queue[i] in s.queue
    {
    }
  }

  // ---------------------------------------------------------------- such a run

  type Rate = r: real | 0.0 <= r < LIMIT witness 0.0

  /** A client that last asked at time ts with rate r. */
  function Asked(r: Rate, cnt: nat, ts: int, now: int): Client {
    Client(cnt, Quotient(r, (1 + now - ts) as real), ts, r, 1)
  }

  function OneRegistered(): System {
    System(Server(0, [], map[1 := NEW_CLIENT]), History(map[1 := Idle], map[1 := 0], map[1 := 0], 0, 0, 0))
  }

  function TwoRegistered(): System {
    System(Server(0, [], map[1 := NEW_CLIENT, 2 := NEW_CLIENT]),
           History(map[1 := Idle, 2 := Idle], map[1 := 0, 2 := 0], map[1 := 0, 2 := 0], 0, 0, 0))
  }

  function Registered(): System {
    System(Server(0, [], map[1 := NEW_CLIENT, 2 := NEW_CLIENT, 3 := NEW_CLIENT]),
           History(map[1 := Idle, 2 := Idle, 3 := Idle],
                   map[1 := 0, 2 := 0, 3 := 0], map[1 := 0, 2 := 0, 3 := 0], 0, 0, 0))
  }

  /** 1 asks at time 10 and is served. */
  function FirstServed(r: Rate): System {
    System(Server(1, [], map[1 := Asked(r, 1, 10, 10), 2 := NEW_CLIENT, 3 := NEW_CLIENT]),
           History(map[1 := Holding, 2 := Idle, 3 := Idle],
                   map[1 := 1, 2 := 0, 3 := 0], map[1 := 1, 2 := 0, 3 := 0], 1, 1, 0))
  }

  /** 2 asks at time 10 and waits. */
  function BeforeLateRequest(r: Rate): System {
    System(Server(1, [2], map[1 := Asked(r, 1, 10, 10), 2 := Asked(r, 0, 10, 10), 3 := NEW_CLIENT]),
           History(map[1 := Holding, 2 := Waiting, 3 := Idle],
                   map[1 := 1, 2 := 1, 3 := 0], map[1 := 1, 2 := 0, 3 := 0], 2, 1, 0))
  }

  /** 3 asks at time 9: the priority of 2 is divided by zero. */
  function AfterLateRequest(r: Rate): System {
    System(Server(1, [2, 3], map[1 := Asked(r, 1, 10, 9), 2 := Asked(r, 0, 10, 9), 3 := Asked(r, 0, 9, 9)]),
           History(map[1 := Holding, 2 := Waiting, 3 := Waiting],
                   map[1 := 1, 2 := 1, 3 := 1], map[1 := 1, 2 := 0, 3 := 0], 3, 1, 0))
  }

  /** 1 finishes and 3 is served. */
  function LateServed(r: Rate): System {
    System(Server(3, [2], map[1 := Asked(r, 1, 10, 9), 2 := Asked(r, 0, 10, 9), 3 := Asked(r, 1, 9, 9)]),
           History(map[1 := Idle, 2 := Waiting, 3 := Holding],
                   map[1 := 1, 2 := 1, 3 := 1], map[1 := 1, 2 := 0, 3 := 1], 3, 2, 1))
  }

  /** m is admissible and takes s to t. */
  ghost predicate Leads(s: System, m: Message, t: System)
    requires QueueRegistered(s.server)
  {
    Admissible(s, m) && Handle(s.server, m).Next? && Advance(s, m) == t && RateInRange(s.server, m)
  }

  lemma GateSteps()
    ensures Leads(Init(), Gate(1), OneRegistered())
    ensures Leads(OneRegistered(), Gate(2), TwoRegistered())
    ensures Leads(TwoRegistered(), Gate(3), Registered())
  {
  }

  lemma Priorities(r: Rate, cnt: nat)
    ensures PriorityAt(NEW_CLIENT, 10) == PriorityAt(NEW_CLIENT, 9) == Finite(0.0)
    ensures PriorityAt(Asked(r, cnt, 10, 10), 10) == Quotient(r, 1.0)
    ensures PriorityAt(Asked(r, cnt, 10, 10), 9) == Quotient(r, 0.0)
    ensures Divided(Finite(r), 1) == Quotient(r, 1.0)
  {
  }

  /** What a request sends, and what the observer sees. */
  lemma RequestLeads(s: System, m: Message, sent: Option<Grant>, t: System)
    requires QueueRegistered(s.server) && Accepts(s.server, m) && Allowed(s.history, m) && RateInRange(s.server, m)
    requires HandleRequest(s.server, m.pid, m.ts, m.rate) == (t.server, sent)
    requires Observed(s.history, m, sent) == t.history
    ensures Leads(s, m, t)
  {
  }

  lemma FirstRequest(r: Rate)
    ensures HandleRequest(Registered().server, 1, 10, r) == (FirstServed(r).server, Some(Grant(1, 0)))
  {
    Priorities(r, 0);
    assert Refreshed(Registered().server.clients, 10) == Registered().server.clients;
    assert HandleRequest(Registered().server, 1, 10, r).0.clients == FirstServed(r).server.clients;
  }

  lemma FirstRequestStep(r: Rate)
    ensures Leads(Registered(), Request(1, 10, r), FirstServed(r))
  {
    FirstRequest(r);
    RequestLeads(Registered(), Request(1, 10, r), Some(Grant(1, 0)), FirstServed(r));
  }

  lemma SecondRefresh(r: Rate)
    ensures Refreshed(FirstServed(r).server.clients, 10) == FirstServed(r).server.clients
  {
    Priorities(r, 1);
  }

  lemma SecondRequest(r: Rate)
    ensures HandleRequest(FirstServed(r).server, 2, 10, r) == (BeforeLateRequest(r).server, None)
  {
    assert Insert([], 2) == [2];
    SecondRefresh(r);
    Priorities(r, 0);
    assert HandleRequest(FirstServed(r).server, 2, 10, r).0.clients == BeforeLateRequest(r).server.clients;
  }

  lemma SecondRequestStep(r: Rate)
    ensures Leads(FirstServed(r), Request(2, 10, r), BeforeLateRequest(r))
  {
    SecondRequest(r);
    RequestLeads(FirstServed(r), Request(2, 10, r), None, BeforeLateRequest(r));
  }

  lemma LateRefresh(r: Rate)
    ensures Refreshed(BeforeLateRequest(r).server.clients, 9)
            == map[1 := Asked(r, 1, 10, 9), 2 := Asked(r, 0, 10, 9), 3 := NEW_CLIENT]
  {
    Priorities(r, 0);
    Priorities(r, 1);
  }

  lemma LateRequest(r: Rate)
    ensures HandleRequest(BeforeLateRequest(r).server, 3, 9, r) == (AfterLateRequest(r).server, None)
  {
    assert Insert([2], 3) == [2, 3];
    LateRefresh(r);
    Priorities(r, 0);
    assert HandleRequest(BeforeLateRequest(r).server, 3, 9, r).0.clients == AfterLateRequest(r).server.clients;
  }

  lemma LateRequestStep(r: Rate)
    ensures Leads(BeforeLateRequest(r), Request(3, 9, r), AfterLateRequest(r))
  {
    LateRequest(r);
    RequestLeads(BeforeLateRequest(r), Request(3, 9, r), None, AfterLateRequest(r));
  }

  lemma LateServedStep(r: Rate)
    ensures Leads(AfterLateRequest(r), Finish(1), LateServed(r))
  {
    var s := AfterLateRequest(r).server;
    assert s.queue[1] == 3 && SomeBelow(s);
    assert [2, 3][1..] == [3] && Scan([3], s.clients, SENTINEL) == Some(3);
    assert Scan([2, 3], s.clients, SENTINEL) == Some(3);
    assert Erase([3], 3) == [] && Erase([2, 3], 3) == [2];
    assert Advance(AfterLateRequest(r), Finish(1)).server.clients == LateServed(r).server.clients;
  }

  /** One message in front of a run. */
  lemma LeadsOn(s: System, m: Message, t: System, ms: seq<Message>, end: System)
    requires Valid(s) && Leads(s, m, t) && Valid(t)
    requires AdmissibleRun(t, ms) && RatesInRange(t, ms) && After(t, ms) == end
    ensures AdmissibleRun(s, [m] + ms) && RatesInRange(s, [m] + ms) && After(s, [m] + ms) == end
  {
    assert ([m] + ms)[1..] == ms;
  }

  lemma LeadsToValid(s: System, m: Message, t: System)
    requires Valid(s) && Leads(s, m, t)
    ensures Valid(t)
  {
    AdvanceValid(s, m);
  }

  lemma RegisteredIsValid()
    ensures Valid(Init()) && Valid(OneRegistered()) && Valid(TwoRegistered()) && Valid(Registered())
  {
    InitValid();
    GateSteps();
    LeadsToValid(Init(), Gate(1), OneRegistered());
    LeadsToValid(OneRegistered(), Gate(2), TwoRegistered());
    LeadsToValid(TwoRegistered(), Gate(3), Registered());
  }

  lemma LateStatesValid(r: Rate)
    ensures Valid(FirstServed(r)) && Valid(BeforeLateRequest(r)) && Valid(AfterLateRequest(r)) && Valid(LateServed(r))
  {
    RegisteredIsValid();
    FirstRequestStep(r);
    LeadsToValid(Registered(), Request(1, 10, r), FirstServed(r));
    SecondRequestStep(r);
    LeadsToValid(FirstServed(r), Request(2, 10, r), BeforeLateRequest(r));
    LateRequestStep(r);
    LeadsToValid(BeforeLateRequest(r), Request(3, 9, r), AfterLateRequest(r));
    LateServedStep(r);
    LeadsToValid(AfterLateRequest(r), Finish(1), LateServed(r));
  }

  function ServedRun(r: Rate): seq<Message> {
    [Request(1, 10, r)] + ([Request(2, 10, r)] + ([Request(3, 9, r)] + ([Finish(1)] + [])))
  }

  function LateRun(r: Rate): seq<Message> {
    [Gate(1)] + ([Gate(2)] + ([Gate(3)] + ServedRun(r)))
  }

  lemma ServedRunLeads(r: Rate)
    ensures Valid(Registered()) && AdmissibleRun(Registered(), ServedRun(r)) && RatesInRange(Registered(), ServedRun(r))
    ensures After(Registered(), ServedRun(r)) == LateServed(r)
  {
    RegisteredIsValid();
    LateStatesValid(r);
    LateServedStep(r);
    LeadsOn(AfterLateRequest(r), Finish(1), LateServed(r), [], LateServed(r));
    LateRequestStep(r);
    LeadsOn(BeforeLateRequest(r), Request(3, 9, r), AfterLateRequest(r), [Finish(1)] + [], LateServed(r));
    SecondRequestStep(r);
    LeadsOn(FirstServed(r), Request(2, 10, r), BeforeLateRequest(r),
            [Request(3, 9, r)] + ([Finish(1)] + []), LateServed(r));
    FirstRequestStep(r);
    LeadsOn(Registered(), Request(1, 10, r), FirstServed(r),
            [Request(2, 10, r)] + ([Request(3, 9, r)] + ([Finish(1)] + [])), LateServed(r));
  }

  /**
   A run that follows the protocol, with any rate, and ends in a finish which finds no winner:
   client 3 asks with a time one second before the last time of client 2, and is served first.
   */
  lemma ClockRunsBack(r: Rate)
    ensures Valid(Init()) && AdmissibleRun(Init(), LateRun(r)) && RatesInRange(Init(), LateRun(r))
    ensures After(Init(), LateRun(r)) == LateServed(r)
    ensures Allowed(LateServed(r).history, Finish(3)) && QueueRegistered(LateServed(r).server)
    ensures Handle(LateServed(r).server, Finish(3)) == Undefined
  {
    RegisteredIsValid();
    GateSteps();
    ServedRunLeads(r);
    LeadsOn(TwoRegistered(), Gate(3), Registered(), ServedRun(r), LateServed(r));
    LeadsOn(OneRegistered(), Gate(2), TwoRegistered(), [Gate(3)] + ServedRun(r), LateServed(r));
    LeadsOn(Init(), Gate(1), OneRegistered(), [Gate(2)] + ([Gate(3)] + ServedRun(r)), LateServed(r));
    LateStatesValid(r);
    NobodyBelow(r);
    HandledIffRunnable(LateServed(r).server, Finish(3));
  }

  lemma NobodyBelow(r: Rate)
    ensures QueueRegistered(LateServed(r).server) && !SomeBelow(LateServed(r).server)
  {
    var s := LateServed(r).server;
    assert s.queue == [2] && s.clients[2].priority == Quotient(r, 0.0);
  }

  /** A request one second before client 2's last time is handled; it leaves client 2, alone
      among the waiting, with a priority that is infinite, or no number when its rate is 0. */
  lemma ExactlyOneSecondBack(r: Rate)
    ensures Leads(BeforeLateRequest(r), Request(3, 9, r), AfterLateRequest(r))
    ensures var c := AfterLateRequest(r).server.clients;
      c[2].priority == (if r > 0.0 then Infinity else NotANumber) && c[3].priority == Finite(r)
  {
    LateRequestStep(r);
  }
}
