/**
 The arbiter of monitor/monitor.cpp when the times of its requests do not run backwards: the
 stored priorities are heart rates that age, and who waits ahead is not overtaken.
 */
module PriorityAgeing {
  import opened ArbiterSpec
  import opened Doubles
  import opened PriorityMonitor

  // ---------------------------------------------------------------- quotients

  lemma ProductSign(x: real, y: real)
    requires x >= 0.0 && y >= 0.0
    ensures x * y >= 0.0
  {
  }

  lemma ProductPositive(x: real, y: real)
    requires x > 0.0 && y > 0.0
    ensures x * y > 0.0
  {
  }

  lemma Reorder(r: real, x: real, y: real)
    ensures r * (x * y) == (r * x) * y
    ensures r * (x * y) == (r * y) * x
  {
  }

  lemma QuotientTimes(u: real, x: real)
    requires x > 0.0
    ensures (u / x) * x == u
  {
  }

  /** Quotients compare as cross products do. */
  lemma CrossMultiply(u: real, x: real, v: real, y: real)
    requires x > 0.0 && y > 0.0
    ensures u / x <= v / y <==> u * y <= v * x
    ensures u / x < v / y <==> u * y < v * x
  {
    QuotientTimes(u, x);
    QuotientTimes(v, y);
    Reorder(u / x, x, y);
    Reorder(v / y, x, y);
    ProductPositive(x, y);
    if u / x < v / y {
      TimesLess(u / x, v / y, x * y);
    } else if u / x > v / y {
      TimesLess(v / y, u / x, x * y);
    }
  }

  lemma MinusTimes(x: real, y: real, z: real)
    ensures (x - y) * z == x * z - y * z
  {
  }

  lemma TimesPlus(x: real, y: real, z: real)
    ensures x * (y + z) == x * y + x * z
  {
  }

  lemma TimesAtMost(r: real, s: real, p: real)
    requires r <= s && p >= 0.0
    ensures r * p <= s * p
  {
    ProductSign(s - r, p);
    MinusTimes(s, r, p);
  }

  lemma TimesLess(r: real, s: real, p: real)
    requires r < s && p > 0.0
    ensures r * p < s * p
  {
    ProductPositive(s - r, p);
    MinusTimes(s, r, p);
  }

  lemma Commutes(x: real, y: real)
    ensures x * y == y * x
  {
  }

  /** A smaller numerator over a larger denominator, by cross products. */
  lemma CrossDominates(u: real, x: real, v: real, y: real)
    requires 0.0 <= u <= v && 0.0 < y <= x
    ensures u * y <= v * x
  {
    TimesAtMost(u, v, x);
    TimesAtMost(y, x, u);
    Commutes(y, u);
    Commutes(x, u);
  }

  lemma CrossBelow(u: real, x: real, v: real, y: real)
    requires 0.0 <= u <= v && 0.0 < y <= x && (u < v || (y < x && u > 0.0))
    ensures u * y < v * x
  {
    Commutes(y, u);
    Commutes(x, u);
    if u < v {
      TimesLess(u, v, x);
      TimesAtMost(y, x, u);
    } else {
      TimesLess(y, x, u);
    }
  }

  /** The same amount added to both denominators keeps the order when u <= v. */
  lemma CrossGrows(u: real, x: real, v: real, y: real, more: real)
    requires u <= v && more >= 0.0 && u * y <= v * x
    ensures u * (y + more) <= v * (x + more)
    ensures u * y < v * x ==> u * (y + more) < v * (x + more)
  {
    TimesPlus(u, y, more);
    TimesPlus(v, x, more);
    ProductSign(v - u, more);
    MinusTimes(v, u, more);
  }

  /** ... and turns it in the end when u > v. */
  lemma CrossTurns(u: real, x: real, v: real, y: real) returns (more: nat)
    requires u > v
    ensures u * (y + more as real) > v * (x + more as real)
  {
    var gap := v * x - u * y;
    more := Wait(gap, u - v);
    MinusTimes(u, v, more as real);
    TimesPlus(u, y, more as real);
    TimesPlus(v, x, more as real);
  }

  lemma QuotientOrderPersists(u: real, x: real, v: real, y: real, more: real)
    requires x > 0.0 && y > 0.0 && u <= v && more >= 0.0 && u / x <= v / y
    ensures u / (x + more) <= v / (y + more)
    ensures u / x < v / y ==> u / (x + more) < v / (y + more)
  {
    CrossMultiply(u, x, v, y);
    CrossGrows(u, x, v, y, more);
    CrossMultiply(u, x + more, v, y + more);
  }

  lemma QuotientOrderTurns(u: real, x: real, v: real, y: real) returns (more: nat)
    requires x > 0.0 && y > 0.0 && u > v
    ensures u / (x + more as real) > v / (y + more as real)
  {
    more := CrossTurns(u, x, v, y);
    CrossMultiply(u, x + more as real, v, y + more as real);
  }

  lemma QuotientDominates(u: real, x: real, v: real, y: real)
    requires 0.0 <= u <= v && 0.0 < y <= x
    ensures u / x <= v / y
    ensures u < v || (y < x && u > 0.0) ==> u / x < v / y
  {
    CrossDominates(u, x, v, y);
    if u < v || (y < x && u > 0.0) {
      CrossBelow(u, x, v, y);
    }
    CrossMultiply(u, x, v, y);
  }

  /** How long a slope takes to rise above a gap. */
  lemma Wait(gap: real, slope: real) returns (wait: nat)
    requires slope > 0.0
    ensures slope * wait as real > gap
  {
    wait := FloorNext(gap / slope);
    QuotientTimes(gap, slope);
    TimesLess(gap / slope, wait as real, slope);
  }

  function FloorNext(x: real): (n: nat)
    ensures n as real > x
  {
    if x < 0.0 then 0 else x.Floor + 1
  }

  /** The divisor at time now. */
  function Age(c: Client, now: int): real { (1 + now - c.lastTs) as real }

  lemma AgeGrows(c: Client, now: int, later: int)
    ensures Age(c, later) == Age(c, now) + (later - now) as real
  {
  }

  /** From the last request on, a priority is a rate divided by an age. */
  lemma PriorityIsQuotient(c: Client, now: int)
    requires c.priIndex == 1 && c.lastTs <= now
    ensures Age(c, now) >= 1.0 && PriorityAt(c, now) == Finite(c.lastHr / Age(c, now))
  {
  }

  // ---------------------------------------------------------------- how priorities age

  /** The priority of a waiting client never rises, and never exceeds its rate. */
  lemma PriorityFalls(c: Client, now: int, later: int)
    requires c.priIndex == 1 && 0.0 <= c.lastHr && c.lastTs <= now <= later
    ensures PriorityAt(c, later).Finite? && PriorityAt(c, now).Finite?
    ensures PriorityAt(c, later).value <= PriorityAt(c, now).value
    ensures 0.0 <= PriorityAt(c, later).value <= c.lastHr
  {
    PriorityIsQuotient(c, now);
    PriorityIsQuotient(c, later);
    QuotientDominates(c.lastHr, Age(c, later), c.lastHr, Age(c, now));
    QuotientDominates(c.lastHr, Age(c, later), c.lastHr, 1.0);
    QuotientDominates(0.0, Age(c, later), c.lastHr, Age(c, later));
  }

  /** c's priority is less than d's, or equal to it, now. */
  predicate NotAbove(c: Client, d: Client, now: int)
    requires c.priIndex == d.priIndex == 1 && c.lastTs <= now && d.lastTs <= now
  {
    !Less(PriorityAt(d, now), PriorityAt(c, now))
  }

  predicate Below(c: Client, d: Client, now: int)
    requires c.priIndex == d.priIndex == 1 && c.lastTs <= now && d.lastTs <= now
  {
    Less(PriorityAt(c, now), PriorityAt(d, now))
  }

  lemma PrioritiesAreQuotients(c: Client, d: Client, now: int)
    requires c.priIndex == d.priIndex == 1 && c.lastTs <= now && d.lastTs <= now
    ensures NotAbove(c, d, now) <==> c.lastHr / Age(c, now) <= d.lastHr / Age(d, now)
    ensures Below(c, d, now) <==> c.lastHr / Age(c, now) < d.lastHr / Age(d, now)
  {
    PriorityIsQuotient(c, now);
    PriorityIsQuotient(d, now);
  }

  /** A client with no larger rate that is not above another now is not above it at any later time. */
  lemma OrderPersists(c: Client, d: Client, now: int, later: int)
    requires c.priIndex == d.priIndex == 1 && c.lastTs <= now <= later && d.lastTs <= now
    requires c.lastHr <= d.lastHr && NotAbove(c, d, now)
    ensures NotAbove(c, d, later)
    ensures Below(c, d, now) ==> Below(c, d, later)
  {
    PrioritiesAreQuotients(c, d, now);
    QuotientOrderPersists(c.lastHr, Age(c, now), d.lastHr, Age(d, now), (later - now) as real);
    AgeGrows(c, now, later);
    AgeGrows(d, now, later);
    PrioritiesAreQuotients(c, d, later);
  }

  /** A client with the larger rate does not keep its place for ever. */
  lemma OrderTurns(c: Client, d: Client, now: int) returns (later: int)
    requires c.priIndex == d.priIndex == 1 && c.lastTs <= now && d.lastTs <= now
    requires c.lastHr > d.lastHr
    ensures later >= now && !NotAbove(c, d, later)
  {
    var more := QuotientOrderTurns(c.lastHr, Age(c, now), d.lastHr, Age(d, now));
    later := now + more;
    AgeGrows(c, now, later);
    AgeGrows(d, now, later);
    PrioritiesAreQuotients(c, d, later);
  }

  /** c is not above d from now on, exactly when it is not above it now and has no larger rate. */
  lemma OrderPersistsIff(c: Client, d: Client, now: int)
    requires c.priIndex == d.priIndex == 1 && c.lastTs <= now && d.lastTs <= now
    ensures (forall later :: later >= now ==> NotAbove(c, d, later)) <==> NotAbove(c, d, now) && c.lastHr <= d.lastHr
  {
    if NotAbove(c, d, now) && c.lastHr <= d.lastHr {
      forall later | later >= now
        ensures NotAbove(c, d, later)
      {
        OrderPersists(c, d, now, later);
      }
    } else if c.lastHr > d.lastHr {
      var later := OrderTurns(c, d, now);
    }
  }

  /** A client that asks with a lower rate, or asked earlier, never has the larger priority. */
  lemma DominatedPriority(c: Client, d: Client, now: int)
    requires c.priIndex == d.priIndex == 1 && 0.0 <= c.lastHr <= d.lastHr && c.lastTs <= d.lastTs <= now
    ensures NotAbove(c, d, now)
    ensures c.lastHr < d.lastHr || (c.lastTs < d.lastTs && c.lastHr > 0.0) ==> Below(c, d, now)
  {
    PrioritiesAreQuotients(c, d, now);
    QuotientDominates(c.lastHr, Age(c, now), d.lastHr, Age(d, now));
  }

  // ---------------------------------------------------------------- requests in order of time

  /** The stored priority is exactly the discounted rate at the time of the last request. */
  ghost predicate ClientAged(c: Client, now: int) {
    && c.priIndex == 1 && 0 <= c.lastTs <= now && 0.0 <= c.lastHr < LIMIT
    && c.priority == PriorityAt(c, now)
  }

  ghost predicate Aged(s: Server, now: int) {
    now >= 0 && forall p :: p in s.clients ==> ClientAged(s.clients[p], now)
  }

  /** Handled requests carry times that do not run backwards and rates below the sentinel. */
  predicate Punctual(s: Server, m: Message, now: int) {
    Accepts(s, m) ==> m.ts >= now && 0.0 <= m.rate < LIMIT
  }

  /** The time of the last handled request. */
  function Clock(s: Server, m: Message, now: int): int {
    if Accepts(s, m) then m.ts else now
  }

  lemma AgedIsBelow(c: Client, now: int, later: int)
    requires ClientAged(c, now) && now <= later
    ensures Less(c.priority, SENTINEL) && Less(PriorityAt(c, later), SENTINEL)
  {
    PriorityFalls(c, now, now);
    PriorityFalls(c, now, later);
  }

  /** Punctual requests are measured: no priority reaches the sentinel. */
  lemma PunctualIsMeasured(s: Server, m: Message, now: int)
    requires Consistent(s) && Aged(s, now) && Punctual(s, m, now)
    ensures AllBelow(s) && Measured(s, m)
  {
    forall p | p in s.clients
      ensures Less(s.clients[p].priority, SENTINEL)
      ensures Accepts(s, m) ==> Less(PriorityAt(s.clients[p], m.ts), SENTINEL)
    {
      AgedIsBelow(s.clients[p], now, Clock(s, m, now));
    }
  }

  lemma RequestKeepsAged(s: Server, m: Message, now: int)
    requires Aged(s, now) && Accepts(s, m) && Punctual(s, m, now)
    ensures Aged(HandleRequest(s, m.pid, m.ts, m.rate).0, m.ts)
  {
  }

  lemma GateKeepsAged(s: Server, m: Message, now: int)
    requires Consistent(s) && Aged(s, now) && m.Gate?
    ensures Handle(s, m).Next? && Aged(Handle(s, m).server, now)
  {
    PriorityIsQuotient(NEW_CLIENT, now);
    assert ClientAged(NEW_CLIENT, now);
  }

  lemma FinishKeepsAged(s: Server, m: Message, now: int)
    requires Consistent(s) && Aged(s, now) && m.Finish? && Handle(s, m).Next?
    ensures Aged(Handle(s, m).server, now)
  {
    var t := Handle(s, m).server;
    forall p | p in t.clients
      ensures ClientAged(t.clients[p], now)
    {
      assert p in s.clients && t.clients[p] == s.clients[p].(cnt := t.clients[p].cnt);
    }
  }

  lemma PunctualStep(sys: System, m: Message, now: int)
    requires Valid(sys) && Aged(sys.server, now) && Allowed(sys.history, m) && Punctual(sys.server, m, now)
    ensures Admissible(sys, m)
    ensures Handle(sys.server, m).Next? && Valid(Advance(sys, m))
    ensures Aged(Advance(sys, m).server, Clock(sys.server, m, now))
  {
    PunctualIsMeasured(sys.server, m, now);
    MeasuredIsRunnable(sys, m);
    if m.Gate? {
      GateKeepsAged(sys.server, m, now);
    } else if m.Finish? {
      FinishKeepsAged(sys.server, m, now);
    } else if Accepts(sys.server, m) {
      RequestKeepsAged(sys.server, m, now);
    }
  }

  /** A run whose handled requests come in order of time. */
  ghost predicate PunctualRun(sys: System, now: int, ms: seq<Message>)
    requires Valid(sys) && Aged(sys.server, now)
    decreases |ms|
  {
    ms == [] ||
    (Allowed(sys.history, ms[0]) && Punctual(sys.server, ms[0], now) &&
     (PunctualStep(sys, ms[0], now);
      PunctualRun(Advance(sys, ms[0]), Clock(sys.server, ms[0], now), ms[1..])))
  }

  /** Such a run is handled to its end, and every priority is exact then. */
  lemma {:induction false} PunctualRunIsAdmissible(sys: System, now: int, ms: seq<Message>) returns (end: int)
    requires Valid(sys) && Aged(sys.server, now) && PunctualRun(sys, now, ms)
    ensures AdmissibleRun(sys, ms) && end >= now && Aged(After(sys, ms).server, end)
    decreases |ms|
  {
    if ms == [] {
      end := now;
    } else {
      PunctualStep(sys, ms[0], now);
      end := PunctualRunIsAdmissible(Advance(sys, ms[0]), Clock(sys.server, ms[0], now), ms[1..]);
    }
  }

  // ---------------------------------------------------------------- no overtaking

  /** a and b wait, a has no larger rate, and the scan would pick a before b now. */
  ghost predicate WaitsAhead(s: Server, a: Pid, b: Pid) {
    && a in s.queue && b in s.queue && a in s.clients && b in s.clients
    && s.clients[a].lastHr <= s.clients[b].lastHr
    && PickedFirst(s.clients, a, b)
  }

  predicate PickedFirst(clients: map<Pid, Client>, a: Pid, b: Pid)
    requires a in clients && b in clients
  {
    Less(clients[a].priority, clients[b].priority) || (clients[a].priority == clients[b].priority && a < b)
  }

  /** A client that asked earlier with no larger rate waits ahead; on an exact tie the smaller pid does. */
  lemma EarlierWaitsAhead(s: Server, now: int, a: Pid, b: Pid)
    requires Aged(s, now) && a in s.queue && b in s.queue && a in s.clients && b in s.clients
    requires var c, d := s.clients[a], s.clients[b]; c.lastHr <= d.lastHr && c.lastTs <= d.lastTs
    requires var c, d := s.clients[a], s.clients[b];
      a < b || c.lastHr < d.lastHr || (c.lastTs < d.lastTs && c.lastHr > 0.0)
    ensures WaitsAhead(s, a, b)
  {
    DominatedPriority(s.clients[a], s.clients[b], now);
  }

  /** The next request refreshes both priorities and keeps their order. */
  lemma RefreshKeepsOrder(clients: map<Pid, Client>, now: int, ts: int, a: Pid, b: Pid)
    requires a in clients && b in clients && ClientAged(clients[a], now) && ClientAged(clients[b], now) && now <= ts
    requires clients[a].lastHr <= clients[b].lastHr && PickedFirst(clients, a, b)
    ensures PickedFirst(Refreshed(clients, ts), a, b)
  {
    OrderPersists(clients[a], clients[b], now, ts);
  }

  lemma RequestKeepsAhead(s: Server, m: Message, now: int, a: Pid, b: Pid)
    requires Consistent(s) && Aged(s, now) && Accepts(s, m) && Punctual(s, m, now)
    requires WaitsAhead(s, a, b) && m.pid != a && m.pid != b && m.pid !in s.queue
    ensures WaitsAhead(HandleRequest(s, m.pid, m.ts, m.rate).0, a, b)
  {
    RefreshKeepsOrder(s.clients, now, m.ts, a, b);
    InsertShape(s.queue, m.pid);
  }

  lemma FinishKeepsAhead(sys: System, m: Message, a: Pid, b: Pid)
    requires Valid(sys) && Admissible(sys, m) && m.Finish? && m.pid in sys.server.clients
    requires WaitsAhead(sys.server, a, b)
    ensures Handle(sys.server, m).Next?
    ensures var o := Handle(sys.server, m);
      && o.sent.Some? && o.sent.value.pid != b
      && (o.sent.value.pid != a ==> WaitsAhead(o.server, a, b))
  {
    RequestsAreConserved(sys);
    FinishGrantsLeast(sys, m);
  }

  /** One message: b is not granted while a waits ahead of it, and unless a is granted, a goes
      on waiting ahead of b. */
  lemma NoOvertakingStep(sys: System, m: Message, now: int, a: Pid, b: Pid)
    requires Valid(sys) && Aged(sys.server, now) && Allowed(sys.history, m) && Punctual(sys.server, m, now)
    requires WaitsAhead(sys.server, a, b)
    ensures Admissible(sys, m) && Handle(sys.server, m).Next?
    ensures var o := Handle(sys.server, m);
      && (o.sent.Some? ==> o.sent.value.pid != b)
      && (o.sent.None? || o.sent.value.pid != a ==> WaitsAhead(o.server, a, b))
  {
    PunctualStep(sys, m, now);
    var s := sys.server;
    WaitersAreSilent(sys.server, sys.history, m);
    if Accepts(s, m) {
      RequestsAreConserved(sys);
      RequestKeepsAhead(s, m, now, a, b);
    } else if m.Finish? && m.pid in s.clients {
      FinishKeepsAhead(sys, m, a, b);
    }
  }

  /** No overtaking: over any run in order of time, a client is not granted the GPU before one
      that waits ahead of it. */
  lemma {:induction false} NoOvertaking(sys: System, now: int, ms: seq<Message>, a: Pid, b: Pid)
    requires Valid(sys) && Aged(sys.server, now) && PunctualRun(sys, now, ms) && WaitsAhead(sys.server, a, b)
    requires AdmissibleRun(sys, ms) ==> !GrantsTo(sys, ms, a)
    ensures AdmissibleRun(sys, ms) && !GrantsTo(sys, ms, b)
    decreases |ms|
  {
    var end := PunctualRunIsAdmissible(sys, now, ms);
    if ms != [] {
      PunctualStep(sys, ms[0], now);
      NoOvertakingStep(sys, ms[0], now, a, b);
      NoOvertaking(Advance(sys, ms[0]), Clock(sys.server, ms[0], now), ms[1..], a, b);
    }
  }
}
