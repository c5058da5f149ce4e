/**
 What both GPU arbiters (monitor/monitor.cpp and monitor/monitor_hb_from_cli.cpp) do, without
 the rule by which they choose among waiting clients.

 The two threads of an arbiter hold one mutex while they handle a message, so a run is a
 sequence of handled messages.  Clients follow a protocol: they ask for the GPU when idle,
 finish when they hold it, and close when idle.
 */
module ArbiterSpec {

  datatype Option<T> = None | Some(value: T)

  /** Process numbers are C integers. */
  type Pid = x: int | -0x8000_0000 <= x < 0x8000_0000

  /** A message to the monitor queue (`pid finished`) or to the gate queue (`pid`), with the time in
      whole seconds and the heart rate that the heartbeat records of the client show by then. */
  datatype Message =
    | Request(pid: Pid, ts: int, rate: real)
    | Finish(pid: Pid)
    | Gate(pid: Pid)

  /** The pid that the GPU is granted to (0: free), the clients that wait, and for every
      registered client the number that its next grant will carry. */
  datatype Arbiter = Arbiter(busy: Pid, waiting: set<Pid>, cnt: map<Pid, nat>)

  /** A grant sent to a client, with its number. */
  datatype Grant = Grant(pid: Pid, number: nat)

  /** Handling m takes a to b and sends `sent`. */
  ghost predicate Step(a: Arbiter, m: Message, b: Arbiter, sent: Option<Grant>) {
    match m
    case Gate(pid) =>
      sent == None && b.busy == a.busy && b.waiting == a.waiting &&
      b.cnt == if pid <= 0 then a.cnt else if pid in a.cnt then a.cnt - {pid} else a.cnt[pid := 0]
    case Request(pid, _, _) =>
      if pid <= 0 || pid !in a.cnt then b == a && sent == None
      else if a.busy == 0 then Grants(a, a.waiting, pid, b, sent)
      else sent == None && b == a.(waiting := a.waiting + {pid})
    case Finish(pid) =>
      if pid <= 0 || pid !in a.cnt || a.busy == 0 then b == a && sent == None
      else if a.waiting == {} then sent == None && b == a.(busy := 0)
      else exists winner :: winner in a.waiting && Grants(a, a.waiting - {winner}, winner, b, sent)
  }

  /** The GPU goes to pid, and `waiting` are left. */
  predicate Grants(a: Arbiter, waiting: set<Pid>, pid: Pid, b: Arbiter, sent: Option<Grant>) {
    && pid in a.cnt
    && sent == Some(Grant(pid, a.cnt[pid]))
    && b == Arbiter(pid, waiting, a.cnt[pid := a.cnt[pid] + 1])
  }

  // ---------------------------------------------------------------- clients

  datatype Phase = Idle | Waiting | Holding

  /** What an observer of all messages knows: the phase of every registered client, how often it
      has asked and was served, and how many requests, grants and finishes there were. */
  datatype History = History(phase: map<Pid, Phase>, asked: map<Pid, nat>, served: map<Pid, nat>,
                             accepted: nat, granted: nat, finished: nat)

  /** The client protocol.  Messages of unregistered clients are ignored by the arbiter. */
  predicate Allowed(h: History, m: Message) {
    m.pid in h.phase ==>
      match m
      case Request(_, _, _) => h.phase[m.pid] == Idle
      case Finish(_) => h.phase[m.pid] == Holding
      case Gate(_) => h.phase[m.pid] == Idle
  }

  function Delivered(phase: map<Pid, Phase>, sent: Option<Grant>): map<Pid, Phase> {
    if sent.Some? && sent.value.pid in phase then phase[sent.value.pid := Holding] else phase
  }

  function Counted(served: map<Pid, nat>, sent: Option<Grant>): map<Pid, nat> {
    if sent.Some? && sent.value.pid in served then served[sent.value.pid := served[sent.value.pid] + 1] else served
  }

  function Observed(h: History, m: Message, sent: Option<Grant>): History {
    var granted := h.granted + (if sent.Some? then 1 else 0);
    match m
    case Gate(pid) =>
      if pid <= 0 then h
      else if pid in h.phase then h.(phase := h.phase - {pid}, asked := h.asked - {pid}, served := h.served - {pid})
      else h.(phase := h.phase[pid := Idle], asked := h.asked[pid := 0], served := h.served[pid := 0])
    case Request(pid, _, _) =>
      if pid !in h.phase || pid !in h.asked then h
      else History(Delivered(h.phase[pid := Waiting], sent), h.asked[pid := h.asked[pid] + 1],
                   Counted(h.served, sent), h.accepted + 1, granted, h.finished)
    case Finish(pid) =>
      if pid !in h.phase then h
      else History(Delivered(h.phase[pid := Idle], sent), h.asked, Counted(h.served, sent),
                   h.accepted, granted, h.finished + 1)
  }

  /** The arbiter and the clients agree on who is registered and who is doing what. */
  ghost predicate Agree(a: Arbiter, h: History) {
    && a.cnt.Keys == h.phase.Keys == h.asked.Keys == h.served.Keys
    && (forall p :: p in a.cnt ==> p > 0)
    && (forall p :: p in h.phase && h.phase[p] == Holding <==> p == a.busy && a.busy != 0)
    && (forall p :: p in h.phase && h.phase[p] == Waiting <==> p in a.waiting)
  }

  /** Conservation of requests, grants and finishes, in all and for each client. */
  ghost predicate Accounts(a: Arbiter, h: History) {
    && h.accepted == h.granted + |a.waiting|
    && h.granted == h.finished + (if a.busy != 0 then 1 else 0)
    && (forall p :: p in a.cnt && p in h.served ==> h.served[p] == a.cnt[p])
    && (forall p :: p in a.cnt && p in h.asked ==> h.asked[p] == a.cnt[p] + (if p in a.waiting then 1 else 0))
  }

  /** One grant at a time, no free GPU while someone waits, and exact accounts. */
  ghost predicate Safe(a: Arbiter, h: History) {
    Agree(a, h) && Accounts(a, h) && (a.busy == 0 ==> a.waiting == {})
  }

  function InitArbiter(): Arbiter { Arbiter(0, {}, map[]) }
  function InitHistory(): History { History(map[], map[], map[], 0, 0, 0) }

  lemma InitSafe()
    ensures Safe(InitArbiter(), InitHistory())
  {
  }

  lemma RegisterKeepsSafe(a: Arbiter, h: History, pid: Pid)
    requires Safe(a, h) && pid > 0 && pid !in a.cnt
    ensures Safe(a.(cnt := a.cnt[pid := 0]), Observed(h, Gate(pid), None))
  {
  }

  lemma CloseKeepsSafe(a: Arbiter, h: History, pid: Pid)
    requires Safe(a, h) && Allowed(h, Gate(pid)) && pid in a.cnt
    ensures Safe(a.(cnt := a.cnt - {pid}), Observed(h, Gate(pid), None))
  {
  }

  lemma GateKeepsSafe(a: Arbiter, h: History, m: Message, b: Arbiter, sent: Option<Grant>)
    requires Safe(a, h) && m.Gate? && Allowed(h, m) && Step(a, m, b, sent)
    ensures Safe(b, Observed(h, m, sent))
  {
    if m.pid > 0 && m.pid !in a.cnt {
      RegisterKeepsSafe(a, h, m.pid);
    } else if m.pid > 0 {
      CloseKeepsSafe(a, h, m.pid);
    }
  }

  lemma ImmediateGrantKeepsSafe(a: Arbiter, h: History, m: Message, b: Arbiter, sent: Option<Grant>)
    requires Safe(a, h) && m.Request? && Allowed(h, m) && Step(a, m, b, sent) && sent.Some?
    ensures Safe(b, Observed(h, m, sent))
  {
    assert a.waiting == {} && m.pid in h.phase;
  }

  lemma QueuedRequestKeepsSafe(a: Arbiter, h: History, m: Message, b: Arbiter)
    requires Safe(a, h) && m.Request? && Allowed(h, m) && Step(a, m, b, None) && m.pid in a.cnt
    ensures Safe(b, Observed(h, m, None))
  {
    assert m.pid !in a.waiting;
    assert |a.waiting + {m.pid}| == |a.waiting| + 1;
  }

  lemma RequestKeepsSafe(a: Arbiter, h: History, m: Message, b: Arbiter, sent: Option<Grant>)
    requires Safe(a, h) && m.Request? && Allowed(h, m) && Step(a, m, b, sent)
    ensures Safe(b, Observed(h, m, sent))
  {
    if sent.Some? {
      ImmediateGrantKeepsSafe(a, h, m, b, sent);
    } else if m.pid in a.cnt {
      QueuedRequestKeepsSafe(a, h, m, b);
    }
  }

  lemma HandOverAgrees(a: Arbiter, h: History, m: Message, b: Arbiter, w: Pid)
    requires Safe(a, h) && m.Finish? && Allowed(h, m) && m.pid in a.cnt && a.busy != 0
    requires w in a.waiting && Grants(a, a.waiting - {w}, w, b, Some(Grant(w, a.cnt[w])))
    ensures Agree(b, Observed(h, m, Some(Grant(w, a.cnt[w]))))
  {
  }

  lemma HandOverAccounts(a: Arbiter, h: History, m: Message, b: Arbiter, w: Pid)
    requires Safe(a, h) && m.Finish? && Allowed(h, m) && m.pid in a.cnt && a.busy != 0
    requires w in a.waiting && Grants(a, a.waiting - {w}, w, b, Some(Grant(w, a.cnt[w])))
    ensures Accounts(b, Observed(h, m, Some(Grant(w, a.cnt[w]))))
  {
    assert |a.waiting - {w}| == |a.waiting| - 1;
  }

  lemma HandOverKeepsSafe(a: Arbiter, h: History, m: Message, b: Arbiter, sent: Option<Grant>)
    requires Safe(a, h) && m.Finish? && Allowed(h, m) && Step(a, m, b, sent) && sent.Some?
    ensures Safe(b, Observed(h, m, sent))
  {
    var w := sent.value.pid;
    assert w in a.waiting && b.waiting == a.waiting - {w};
    HandOverAgrees(a, h, m, b, w);
    HandOverAccounts(a, h, m, b, w);
  }

  lemma FinishKeepsSafe(a: Arbiter, h: History, m: Message, b: Arbiter, sent: Option<Grant>)
    requires Safe(a, h) && m.Finish? && Allowed(h, m) && Step(a, m, b, sent)
    ensures Safe(b, Observed(h, m, sent))
  {
    if sent.Some? {
      HandOverKeepsSafe(a, h, m, b, sent);
    }
  }

  lemma StepKeepsSafe(a: Arbiter, h: History, m: Message, b: Arbiter, sent: Option<Grant>)
    requires Safe(a, h) && Allowed(h, m) && Step(a, m, b, sent)
    ensures Safe(b, Observed(h, m, sent))
  {
    match m
    case Gate(_) => GateKeepsSafe(a, h, m, b, sent);
    case Request(_, _, _) => RequestKeepsSafe(a, h, m, b, sent);
    case Finish(_) => FinishKeepsSafe(a, h, m, b, sent);
  }

  /** A grant goes to a client that asked and has no grant yet, and only when nobody holds one:
      what a client may rely on when a grant arrives. */
  lemma GrantIsExclusive(a: Arbiter, h: History, m: Message, b: Arbiter, sent: Option<Grant>)
    requires Safe(a, h) && Allowed(h, m) && Step(a, m, b, sent) && sent.Some?
    ensures b.busy == sent.value.pid
    ensures forall p :: p in h.phase && h.phase[p] == Holding ==> m == Finish(p)
    ensures m == Finish(m.pid) ==> h.phase[sent.value.pid] == Waiting
    ensures m.Request? ==> sent.value.pid == m.pid
    ensures sent.value.pid in h.asked && sent.value.pid in h.served
    ensures sent.value.number == h.served[sent.value.pid]
    ensures sent.value.number == h.asked[sent.value.pid] - (if m.Finish? then 1 else 0)
  {
  }

  // ---------------------------------------------------------------- whole runs

  /** A run from the start: arbiter states, histories, handled messages and sent grants. */
  datatype Run = Run(states: seq<Arbiter>, histories: seq<History>, messages: seq<Message>, sent: seq<Option<Grant>>)

  /** Step i of a run. */
  ghost predicate RunStep(r: Run, i: nat)
    requires |r.states| == |r.histories| == |r.messages| + 1 && |r.sent| == |r.messages| && i < |r.messages|
  {
    && Allowed(r.histories[i], r.messages[i])
    && Step(r.states[i], r.messages[i], r.states[i + 1], r.sent[i])
    && r.histories[i + 1] == Observed(r.histories[i], r.messages[i], r.sent[i])
  }

  ghost predicate IsRun(r: Run) {
    && |r.states| == |r.histories| == |r.messages| + 1 && |r.sent| == |r.messages|
    && r.states[0] == InitArbiter() && r.histories[0] == InitHistory()
    && forall i :: 0 <= i < |r.messages| ==> RunStep(r, i)
  }

  /** Every state of every run is safe. */
  lemma {:induction false} RunIsSafe(r: Run, i: nat)
    requires IsRun(r) && i < |r.states|
    ensures Safe(r.states[i], r.histories[i])
  {
    if i == 0 {
      InitSafe();
    } else {
      RunIsSafe(r, i - 1);
      assert RunStep(r, i - 1);
      StepKeepsSafe(r.states[i - 1], r.histories[i - 1], r.messages[i - 1], r.states[i], r.sent[i - 1]);
    }
  }
}
