/**
 The arbiter of monitor/monitor_hb_from_cli.cpp: waiting clients stand in a multimap ordered
 by the heart rate they had when they asked, and the GPU goes to the first of them.
 */
module RateMonitor {
  import opened ArbiterSpec

  /** A queue entry: the rate at the time of the request, and the client. */
  datatype Entry = Entry(rate: real, pid: Pid)

  datatype Server = Server(busy: Pid, queue: seq<Entry>, cnt: map<Pid, nat>)

  /** Insertion into the multimap: behind all entries with rates up to the new one. */
  function Insert(queue: seq<Entry>, e: Entry): seq<Entry> {
    if queue == [] || e.rate < queue[0].rate then [e] + queue
    else [queue[0]] + Insert(queue[1..], e)
  }

  /** Ordered by rate, every client at most once. */
  ghost predicate Ordered(queue: seq<Entry>) {
    && (forall i, j :: 0 <= i < j < |queue| ==> queue[i].rate <= queue[j].rate)
    && (forall i, j :: 0 <= i < j < |queue| ==> queue[i].pid != queue[j].pid)
  }

  function Pids(queue: seq<Entry>): set<Pid> {
    set i | 0 <= i < |queue| :: queue[i].pid
  }

  /** Where the new entry goes. */
  function Place(queue: seq<Entry>, rate: real): (n: nat)
    ensures n <= |queue|
  {
    if queue == [] || rate < queue[0].rate then 0 else 1 + Place(queue[1..], rate)
  }

  lemma {:induction false} InsertAtPlace(queue: seq<Entry>, e: Entry)
    ensures var n := Place(queue, e.rate); Insert(queue, e) == queue[..n] + [e] + queue[n..]
  {
    if queue == [] || e.rate < queue[0].rate {
      assert queue[..0] + [e] + queue[0..] == [e] + queue;
    } else {
      var rest, n := queue[1..], Place(queue[1..], e.rate);
      InsertAtPlace(rest, e);
      assert [queue[0]] + (rest[..n] + [e] + rest[n..]) == queue[..n + 1] + [e] + queue[n + 1..];
    }
  }

  lemma {:induction false} PlaceAbove(queue: seq<Entry>, rate: real, i: nat)
    requires i < Place(queue, rate)
    ensures queue[i].rate <= rate
  {
    if i > 0 {
      PlaceAbove(queue[1..], rate, i - 1);
    }
  }

  lemma {:induction false} PlaceBelow(queue: seq<Entry>, rate: real, i: nat)
    requires Ordered(queue) && Place(queue, rate) <= i < |queue|
    ensures rate < queue[i].rate
  {
    if rate >= queue[0].rate {
      PlaceBelow(queue[1..], rate, i - 1);
    }
  }

  /** The new entry goes behind all entries with rates up to its own and before all others. */
  lemma InsertShape(queue: seq<Entry>, e: Entry)
    requires Ordered(queue)
    ensures var n := Place(queue, e.rate);
      && Insert(queue, e) == queue[..n] + [e] + queue[n..]
      && (forall i :: 0 <= i < n ==> queue[i].rate <= e.rate)
      && (forall i :: n <= i < |queue| ==> e.rate < queue[i].rate)
  {
    var n := Place(queue, e.rate);
    InsertAtPlace(queue, e);
    forall i | 0 <= i < n
      ensures queue[i].rate <= e.rate
    {
      PlaceAbove(queue, e.rate, i);
    }
    forall i | n <= i < |queue|
      ensures e.rate < queue[i].rate
    {
      PlaceBelow(queue, e.rate, i);
    }
  }

  /** Where entry i stands after an insertion. */
  lemma InsertMoves(queue: seq<Entry>, e: Entry, i: nat)
    requires Ordered(queue) && i < |queue|
    ensures |Insert(queue, e)| == |queue| + 1
    ensures Insert(queue, e)[if i < Place(queue, e.rate) then i else i + 1] == queue[i]
  {
    InsertShape(queue, e);
  }

  lemma InsertKeepsPids(queue: seq<Entry>, e: Entry)
    requires Ordered(queue)
    ensures Pids(Insert(queue, e)) == Pids(queue) + {e.pid}
  {
    InsertShape(queue, e);
    var n, t := Place(queue, e.rate), Insert(queue, e);
    forall i | 0 <= i < |queue|
      ensures queue[i].pid in Pids(t)
    {
      assert t[if i < n then i else i + 1] == queue[i];
    }
    assert t[n] == e;
    forall i | 0 <= i < |t|
      ensures t[i].pid in Pids(queue) + {e.pid}
    {
      InsertedPid(queue, e, n, t, i);
    }
  }

  lemma InsertedPid(queue: seq<Entry>, e: Entry, n: nat, t: seq<Entry>, i: nat)
    requires n <= |queue| && t == queue[..n] + [e] + queue[n..] && i < |t|
    ensures t[i].pid in Pids(queue) + {e.pid}
  {
    assert i != n ==> t[i] == queue[if i < n then i else i - 1];
  }

  lemma InsertKeepsOrder(queue: seq<Entry>, e: Entry)
    requires Ordered(queue) && e.pid !in Pids(queue)
    ensures Ordered(Insert(queue, e))
  {
    InsertShape(queue, e);
    var n, t := Place(queue, e.rate), Insert(queue, e);
    forall i, j | 0 <= i < j < |t|
      ensures t[i].rate <= t[j].rate && t[i].pid != t[j].pid
    {
      assert i != n ==> t[i] == queue[if i < n then i else i - 1];
      assert j != n ==> t[j] == queue[if j < n then j else j - 1];
    }
  }

  lemma PopKeepsOrder(queue: seq<Entry>)
    requires Ordered(queue) && queue != []
    ensures Ordered(queue[1..]) && Pids(queue[1..]) == Pids(queue) - {queue[0].pid}
    ensures queue[0].pid in Pids(queue)
  {
    var t := queue[1..];
    forall i | 0 <= i < |t|
      ensures t[i].pid in Pids(queue) - {queue[0].pid}
    {
      assert t[i] == queue[i + 1];
    }
    forall i | 1 <= i < |queue|
      ensures queue[i].pid in Pids(t)
    {
      assert queue[i] == t[i - 1];
    }
  }

  lemma {:induction false} PidsCount(queue: seq<Entry>)
    requires Ordered(queue)
    ensures |Pids(queue)| == |queue|
  {
    if queue != [] {
      PopKeepsOrder(queue);
      PidsCount(queue[1..]);
    }
  }

  // ---------------------------------------------------------------- handling one message

  datatype Outcome = Next(server: Server, sent: Option<Grant>)

  function Granted(s: Server, queue: seq<Entry>, pid: Pid): Outcome
    requires pid in s.cnt
  {
    Next(Server(pid, queue, s.cnt[pid := s.cnt[pid] + 1]), Some(Grant(pid, s.cnt[pid])))
  }

  ghost predicate Consistent(s: Server) {
    Ordered(s.queue) && forall i :: 0 <= i < |s.queue| ==> s.queue[i].pid in s.cnt
  }

  function Handle(s: Server, m: Message): Outcome
    requires s.queue != [] ==> s.queue[0].pid in s.cnt
  {
    if m.pid <= 0 then Next(s, None)
    else match m
      case Gate(pid) => Next(s.(cnt := if pid in s.cnt then s.cnt - {pid} else s.cnt[pid := 0]), None)
      case Request(pid, _, rate) =>
        if pid !in s.cnt then Next(s, None)
        else if s.busy == 0 then Granted(s, s.queue, pid)
        else Next(s.(queue := Insert(s.queue, Entry(rate, pid))), None)
      case Finish(pid) =>
        if pid !in s.cnt || s.busy == 0 then Next(s, None)
        else if s.queue == [] then Next(s.(busy := 0), None)
        else Granted(s, s.queue[1..], s.queue[0].pid)
  }

  function Abstract(s: Server): Arbiter {
    Arbiter(s.busy, Pids(s.queue), s.cnt)
  }

  ghost predicate Valid(s: Server, h: History) {
    Consistent(s) && Safe(Abstract(s), h)
  }

  lemma RequestRefines(s: Server, m: Message)
    requires Consistent(s) && m.Request? && m.pid !in Pids(s.queue)
    ensures var o := Handle(s, m);
      Step(Abstract(s), m, Abstract(o.server), o.sent) && Consistent(o.server)
  {
    if m.pid > 0 && m.pid in s.cnt && s.busy != 0 {
      var e := Entry(m.rate, m.pid);
      InsertKeepsPids(s.queue, e);
      InsertKeepsOrder(s.queue, e);
      InsertedAreKnown(s, e);
    }
  }

  lemma InsertedAreKnown(s: Server, e: Entry)
    requires Consistent(s) && e.pid in s.cnt
    ensures forall i :: 0 <= i < |Insert(s.queue, e)| ==> Insert(s.queue, e)[i].pid in s.cnt
  {
    InsertShape(s.queue, e);
    var n, t := Place(s.queue, e.rate), Insert(s.queue, e);
    forall i | 0 <= i < |t|
      ensures t[i].pid in s.cnt
    {
      assert i != n ==> t[i] == s.queue[if i < n then i else i - 1];
    }
  }

  lemma FinishRefines(s: Server, m: Message)
    requires Consistent(s) && m.Finish?
    ensures var o := Handle(s, m);
      Step(Abstract(s), m, Abstract(o.server), o.sent) && Consistent(o.server)
  {
    NoWaitersIffEmpty(s.queue);
    if m.pid > 0 && m.pid in s.cnt && s.busy != 0 && s.queue != [] {
      PopKeepsOrder(s.queue);
      var o := Handle(s, m);
      assert Grants(Abstract(s), Abstract(s).waiting - {s.queue[0].pid}, s.queue[0].pid, Abstract(o.server), o.sent);
    }
  }

  lemma GateRefines(s: Server, m: Message)
    requires Consistent(s) && m.Gate? && m.pid !in Pids(s.queue)
    ensures var o := Handle(s, m);
      Step(Abstract(s), m, Abstract(o.server), o.sent) && Consistent(o.server)
  {
    if m.pid in s.cnt {
      GateKeepsQueue(s, m.pid);
    }
  }

  /** Every message from a client that does not wait for the GPU, whoever holds it, is a step of the
      abstract arbiter and keeps the server consistent; so is a finish from any client. */
  lemma StepRefines(s: Server, m: Message)
    requires Consistent(s) && (m.Finish? || m.pid !in Pids(s.queue))
    ensures var o := Handle(s, m);
      Step(Abstract(s), m, Abstract(o.server), o.sent) && Consistent(o.server)
  {
    match m
    case Gate(_) => GateRefines(s, m);
    case Request(_, _, _) => RequestRefines(s, m);
    case Finish(_) => FinishRefines(s, m);
  }

  /** Under the client protocol every message keeps the server consistent with its clients. */
  lemma HandleRefines(s: Server, h: History, m: Message)
    requires Valid(s, h) && Allowed(h, m)
    ensures var o := Handle(s, m);
      Step(Abstract(s), m, Abstract(o.server), o.sent) && Valid(o.server, Observed(h, m, o.sent))
  {
    var o := Handle(s, m);
    assert m.pid in Pids(s.queue) ==> m.pid in Abstract(s).waiting;
    StepRefines(s, m);
    StepKeepsSafe(Abstract(s), h, m, Abstract(o.server), o.sent);
  }

  lemma GateKeepsQueue(s: Server, pid: Pid)
    requires Consistent(s) && pid !in Pids(s.queue)
    ensures Consistent(s.(cnt := s.cnt - {pid}))
  {
    forall i | 0 <= i < |s.queue|
      ensures s.queue[i].pid in s.cnt - {pid}
    {
      assert s.queue[i].pid in Pids(s.queue);
    }
  }

  lemma NoWaitersIffEmpty(queue: seq<Entry>)
    ensures Pids(queue) == {} <==> queue == []
  {
    if queue != [] {
      assert queue[0].pid in Pids(queue);
    }
  }

  /** The winner of a finish has the least rate of all waiting clients, and is removed alone. */
  lemma FinishGrantsLeastRate(s: Server, h: History, m: Message)
    requires Valid(s, h) && Allowed(h, m) && m.Finish? && m.pid in s.cnt && s.queue != []
    ensures var o := Handle(s, m);
      && o.sent.Some? && o.sent.value.pid == s.queue[0].pid
      && (forall i :: 0 <= i < |s.queue| ==> s.queue[0].rate <= s.queue[i].rate)
      && o.server.queue == s.queue[1..]
  {
    assert m.pid in h.phase && h.phase[m.pid] == Holding;
  }

  // ---------------------------------------------------------------- whole runs

  function InitServer(): Server { Server(0, [], map[]) }

  lemma InitValid()
    ensures Valid(InitServer(), InitHistory())
  {
    InitSafe();
    assert Abstract(InitServer()) == InitArbiter();
  }

  ghost predicate AllowedRun(s: Server, h: History, ms: seq<Message>)
    requires Valid(s, h)
    decreases |ms|
  {
    ms == [] ||
    (Allowed(h, ms[0]) &&
     (HandleRefines(s, h, ms[0]);
      var o := Handle(s, ms[0]);
      AllowedRun(o.server, Observed(h, ms[0], o.sent), ms[1..])))
  }

  datatype System = System(server: Server, history: History)

  ghost function After(s: Server, h: History, ms: seq<Message>): System
    requires Valid(s, h) && AllowedRun(s, h, ms)
    decreases |ms|
  {
    if ms == [] then System(s, h)
    else
      HandleRefines(s, h, ms[0]);
      var o := Handle(s, ms[0]);
      After(o.server, Observed(h, ms[0], o.sent), ms[1..])
  }

  lemma {:induction false} RunKeepsValid(s: Server, h: History, ms: seq<Message>)
    requires Valid(s, h) && AllowedRun(s, h, ms)
    ensures Valid(After(s, h, ms).server, After(s, h, ms).history)
    decreases |ms|
  {
    if ms != [] {
      HandleRefines(s, h, ms[0]);
      var o := Handle(s, ms[0]);
      RunKeepsValid(o.server, Observed(h, ms[0], o.sent), ms[1..]);
    }
  }

  /** Requests accepted are grants sent plus the clients in the queue, each queued once. */
  lemma RequestsAreConserved(s: Server, h: History)
    requires Valid(s, h)
    ensures h.accepted == h.granted + |s.queue|
    ensures h.granted == h.finished + (if s.busy != 0 then 1 else 0)
    ensures s.busy == 0 ==> s.queue == []
    ensures forall i :: 0 <= i < |s.queue| ==> s.queue[i].pid != s.busy
  {
    PidsCount(s.queue);
    NoWaitersIffEmpty(s.queue);
    forall i | 0 <= i < |s.queue|
      ensures s.queue[i].pid != s.busy
    {
      assert s.queue[i].pid in Abstract(s).waiting;
    }
  }

  /** After any run from the start: one grant at a time, a free GPU only when nobody waits, and
      exact accounts. */
  lemma EveryRunIsSafe(ms: seq<Message>)
    requires Valid(InitServer(), InitHistory()) && AllowedRun(InitServer(), InitHistory(), ms)
    ensures var end := After(InitServer(), InitHistory(), ms);
      && Safe(Abstract(end.server), end.history) && Consistent(end.server)
      && end.history.accepted == end.history.granted + |end.server.queue|
      && (end.server.busy == 0 ==> end.server.queue == [])
  {
    RunKeepsValid(InitServer(), InitHistory(), ms);
    var end := After(InitServer(), InitHistory(), ms);
    RequestsAreConserved(end.server, end.history);
  }

  /** Some message of the run makes the server grant the GPU to p. */
  ghost predicate GrantsTo(s: Server, h: History, ms: seq<Message>, p: Pid)
    requires Valid(s, h) && AllowedRun(s, h, ms)
    decreases |ms|
  {
    ms != [] &&
    (HandleRefines(s, h, ms[0]);
     var o := Handle(s, ms[0]);
     (o.sent.Some? && o.sent.value.pid == p) || GrantsTo(o.server, Observed(h, ms[0], o.sent), ms[1..], p))
  }

  /** a stands before b in the queue. */
  ghost predicate Before(queue: seq<Entry>, a: Pid, b: Pid) {
    exists i, j :: Stands(queue, i, a, j, b)
  }

  predicate Stands(queue: seq<Entry>, i: int, a: Pid, j: int, b: Pid) {
    0 <= i < j < |queue| && queue[i].pid == a && queue[j].pid == b
  }

  lemma InsertKeepsBefore(queue: seq<Entry>, e: Entry, a: Pid, b: Pid)
    requires Ordered(queue) && Before(queue, a, b)
    ensures Before(Insert(queue, e), a, b)
  {
    var n, t := Place(queue, e.rate), Insert(queue, e);
    var i, j :| Stands(queue, i, a, j, b);
    InsertMoves(queue, e, i);
    InsertMoves(queue, e, j);
    assert Stands(t, if i < n then i else i + 1, a, if j < n then j else j + 1, b);
  }

  /** A client that asks while others wait with rates up to its own stands behind all of them. */
  lemma NewcomerStandsBehind(s: Server, h: History, m: Message, a: Pid, i: nat)
    requires Valid(s, h) && Allowed(h, m) && m.Request? && m.pid > 0 && m.pid in s.cnt && s.busy != 0
    requires i < |s.queue| && s.queue[i].pid == a && s.queue[i].rate <= m.rate
    ensures Before(Handle(s, m).server.queue, a, m.pid)
  {
    var e := Entry(m.rate, m.pid);
    InsertShape(s.queue, e);
    var n, t := Place(s.queue, m.rate), Insert(s.queue, e);
    assert t[n] == e && Stands(t, i, a, n, m.pid);
  }

  lemma PopKeepsBefore(queue: seq<Entry>, a: Pid, b: Pid)
    requires Ordered(queue) && Before(queue, a, b)
    ensures queue[0].pid != b
    ensures queue[0].pid != a ==> Before(queue[1..], a, b)
  {
    var i, j :| Stands(queue, i, a, j, b);
    if i > 0 {
      assert Stands(queue[1..], i - 1, a, j - 1, b);
    }
  }

  lemma NoOvertakingStep(s: Server, h: History, m: Message, a: Pid, b: Pid)
    requires Valid(s, h) && Allowed(h, m) && Before(s.queue, a, b)
    ensures var o := Handle(s, m);
      && (o.sent.Some? ==> o.sent.value.pid != b)
      && (o.sent.None? || o.sent.value.pid != a ==> Before(o.server.queue, a, b))
  {
    NoWaitersIffEmpty(s.queue);
    if m.Finish? {
      PopKeepsBefore(s.queue, a, b);
    } else if m.Request? {
      InsertKeepsBefore(s.queue, Entry(m.rate, m.pid), a, b);
    }
  }

  /** No overtaking: over any run, who stands behind is not granted the GPU before who stands in front. */
  lemma {:induction false} NoOvertaking(s: Server, h: History, ms: seq<Message>, a: Pid, b: Pid)
    requires Valid(s, h) && AllowedRun(s, h, ms) && Before(s.queue, a, b) && !GrantsTo(s, h, ms, a)
    ensures !GrantsTo(s, h, ms, b)
    decreases |ms|
  {
    if ms != [] {
      HandleRefines(s, h, ms[0]);
      NoOvertakingStep(s, h, ms[0], a, b);
      var o := Handle(s, ms[0]);
      NoOvertaking(o.server, Observed(h, ms[0], o.sent), ms[1..], a, b);
    }
  }

  // ---------------------------------------------------------------- the imperative server

  class Monitor {
    var busy: Pid
    var clientsTaskQueue: seq<Entry>
    var clientsMap: map<Pid, nat>

    function State(): Server
      reads this
    {
      Server(busy, clientsTaskQueue, clientsMap)
    }

    constructor ()
      ensures State() == InitServer()
    {
      busy, clientsTaskQueue, clientsMap := 0, [], map[];
    }

    method ReceiveAtGate(pid: Pid)
      requires Consistent(State())
      modifies this
      ensures Next(State(), None) == Handle(old(State()), Gate(pid))
    {
      if pid > 0 {
        if pid !in clientsMap {
          clientsMap := clientsMap[pid := 0];
        } else {
          clientsMap := clientsMap - {pid};
        }
      }
    }

    method Receive(pid: Pid, finished: bool, rate: real) returns (sent: Option<Grant>)
      requires Consistent(State())
      modifies this
      ensures Next(State(), sent) == Handle(old(State()), if finished then Finish(pid) else Request(pid, 0, rate))
    {
      sent := None;
      if pid > 0 && pid in clientsMap {
        if busy == 0 {
          if !finished {
            sent := Some(Grant(pid, clientsMap[pid]));
            clientsMap := clientsMap[pid := clientsMap[pid] + 1];
            busy := pid;
          }
        } else if finished {
          if clientsTaskQueue == [] {
            busy := 0;
          } else {
            var popped := clientsTaskQueue[0].pid;
            sent := Some(Grant(popped, clientsMap[popped]));
            clientsMap := clientsMap[popped := clientsMap[popped] + 1];
            busy := popped;
            clientsTaskQueue := clientsTaskQueue[1..];
          }
        } else {
          clientsTaskQueue := Insert(clientsTaskQueue, Entry(rate, pid));
        }
      }
    }
  }

  method ThreeRegistered() returns (monitor: Monitor)
    ensures fresh(monitor) && monitor.State() == Server(0, [], map[1 := 0, 2 := 0, 3 := 0])
  {
    monitor := new Monitor();
    monitor.ReceiveAtGate(1);
    monitor.ReceiveAtGate(2);
    monitor.ReceiveAtGate(3);
  }

  /** 1 is served at once; of 2 and 3, who ask meanwhile with rates 5 and 3, 3 is served next. */
  method ServeThree() returns (sent: Option<Grant>)
    ensures sent == Some(Grant(3, 0))
  {
    var monitor := ThreeRegistered();
    sent := monitor.Receive(1, false, 1.0);
    assert monitor.State() == Server(1, [], map[1 := 1, 2 := 0, 3 := 0]);
    sent := monitor.Receive(2, false, 5.0);
    assert monitor.State() == Server(1, [Entry(5.0, 2)], map[1 := 1, 2 := 0, 3 := 0]);
    sent := monitor.Receive(3, false, 3.0);
    assert monitor.State().queue == [Entry(3.0, 3), Entry(5.0, 2)];
    sent := monitor.Receive(1, true, 0.0);
  }
}
