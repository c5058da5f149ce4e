/**
 The bounded buffer shared by any number of producers and consumers
 (ipc/shm/example/sysv/shared.c, producer.c, consumer.c).

 Every semaphore operation and every access to a slot is a step of its own, so the theorems
 are about all interleavings.  A process that would read or write outside the buffer turns the
 state into a fault.
 */
module BoundedBuffer {
  import opened Numbers

  const BUFFER_SIZE := 5
  const ITEM := 0xFF
  const LAST_CNT := 10

  // ---------------------------------------------------------------- the buffer

  /** How many of the first n slots are taken. */
  function Marks(b: seq<int>, n: nat): (c: nat)
    requires n <= |b|
    ensures c <= n
  {
    if n == 0 then 0 else Marks(b, n - 1) + if b[n - 1] == ITEM then 1 else 0
  }

  /** k slots taken, the others clear. */
  predicate Filled(b: seq<int>, k: int) {
    && |b| == BUFFER_SIZE && 0 <= k <= BUFFER_SIZE
    && (forall j :: 0 <= j < k ==> b[j] == ITEM)
    && (forall j :: k <= j < BUFFER_SIZE ==> b[j] == 0)
  }

  lemma {:induction false} MarksFilled(b: seq<int>, k: int, n: nat)
    requires Filled(b, k) && n <= BUFFER_SIZE
    ensures Marks(b, n) == Min(n, k)
  {
    if n > 0 {
      MarksFilled(b, k, n - 1);
    }
  }

  method GetBufferSize(sbuff: array<int>) returns (counter: nat)
    requires sbuff.Length == BUFFER_SIZE
    ensures counter == Marks(sbuff[..], BUFFER_SIZE)
    ensures forall k :: Filled(sbuff[..], k) ==> counter == k
  {
    counter := 0;
    var i := 0;
    while i < BUFFER_SIZE
      invariant 0 <= i <= BUFFER_SIZE
      invariant counter == Marks(sbuff[..], i)
    {
      if sbuff[i] == ITEM {
        counter := counter + 1;
      }
      i := i + 1;
    }
    forall k | Filled(sbuff[..], k)
      ensures counter == k
    {
      MarksFilled(sbuff[..], k, BUFFER_SIZE);
    }
  }

  method ClearBuffer(sbuff: array<int>)
    requires sbuff.Length == BUFFER_SIZE
    modifies sbuff
    ensures Filled(sbuff[..], 0)
  {
    var i := 0;
    while i < BUFFER_SIZE
      invariant 0 <= i <= BUFFER_SIZE
      invariant forall j :: 0 <= j < i ==> sbuff[j] == 0
    {
      sbuff[i] := 0;
      i := i + 1;
    }
  }

  /** Fills the first clear slot; the semaphores see to it that there is one (RoomToStore). */
  method InsertItem(item: int, sharedBuffer: array<int>, ghost k: nat)
    requires sharedBuffer.Length == BUFFER_SIZE && Filled(sharedBuffer[..], k) && k < BUFFER_SIZE
    modifies sharedBuffer
    ensures sharedBuffer[..] == old(sharedBuffer[..])[k := item]
    ensures item == ITEM ==> Filled(sharedBuffer[..], k + 1)
  {
    var index := GetBufferSize(sharedBuffer);
    sharedBuffer[index] := item;
  }

  /** Empties the last taken slot; the semaphores see to it that there is one (ItemToTake). */
  method RemoveItem(sharedBuffer: array<int>, ghost k: nat) returns (item: int)
    requires sharedBuffer.Length == BUFFER_SIZE && Filled(sharedBuffer[..], k) && k > 0
    modifies sharedBuffer
    ensures item == ITEM && Filled(sharedBuffer[..], k - 1)
  {
    var size := GetBufferSize(sharedBuffer);
    var index := size - 1;
    item := sharedBuffer[index];
    sharedBuffer[index] := 0;
  }

  // ---------------------------------------------------------------- processes

  /**
   Where a process stands: at its loop test, at its first semaphore, at the mutex, scanning
   slot i with the count so far, at its slot, about to clear it, or at the two releases.
   */
  datatype Stage =
    | Test
    | DownFirst
    | DownMutex
    | Scan(i: nat, counter: nat)
    | Access(index: int)
    | Clear(index: int)
    | UpMutex
    | UpLast
    | Done

  datatype Process = Producer(stage: Stage, cnt: int) | Consumer(stage: Stage)

  /** stored and removed count the accesses that filled and cleared a slot since the start. */
  datatype State =
    State(buffer: seq<int>, empty: int, full: int, mutex: int, procs: seq<Process>, stored: nat, removed: nat)

  datatype Outcome = Next(state: State) | Fault

  predicate IsInitial(s: State) {
    && Filled(s.buffer, 0)
    && s.empty == BUFFER_SIZE && s.full == 0 && s.mutex == 1 && s.stored == 0 && s.removed == 0
    && forall p :: 0 <= p < |s.procs| ==> InitialProcess(s.procs[p])
  }

  /** Whether process p is not blocked on a semaphore. */
  predicate Enabled(s: State, p: nat)
    requires p < |s.procs|
  {
    match s.procs[p].stage
    case DownFirst => if s.procs[p].Producer? then s.empty > 0 else s.full > 0
    case DownMutex => s.mutex > 0
    case Done => false
    case _ => true
  }

  function With(s: State, p: nat, q: Process): State
    requires p < |s.procs|
  {
    s.(procs := s.procs[p := q])
  }

  function Scanned(b: seq<int>, i: nat, counter: nat): nat {
    if i < |b| && b[i] == ITEM then counter + 1 else counter
  }

  function ProducerStep(s: State, p: nat): Outcome
    requires p < |s.procs| && s.procs[p].Producer? && Enabled(s, p)
  {
    var cnt := s.procs[p].cnt;
    match s.procs[p].stage
    case Test =>
      Next(With(s, p, if cnt >= 0 then Producer(DownFirst, cnt - 1) else Producer(Done, cnt)))
    case DownFirst => Next(With(s, p, Producer(DownMutex, cnt)).(empty := s.empty - 1))
    case DownMutex => Next(With(s, p, Producer(Scan(0, 0), cnt)).(mutex := s.mutex - 1))
    case Scan(i, counter) =>
      Next(With(s, p, Producer(if i < BUFFER_SIZE then Scan(i + 1, Scanned(s.buffer, i, counter)) else Access(counter), cnt)))
    case Access(index) =>
      if 0 <= index < |s.buffer|
      then Next(With(s, p, Producer(UpMutex, cnt)).(buffer := s.buffer[index := ITEM], stored := s.stored + 1))
      else Fault
    case UpMutex => Next(With(s, p, Producer(UpLast, cnt)).(mutex := s.mutex + 1))
    case UpLast => Next(With(s, p, Producer(Test, cnt)).(full := s.full + 1))
    case _ => Next(s)
  }

  function ConsumerStep(s: State, p: nat): Outcome
    requires p < |s.procs| && s.procs[p].Consumer? && Enabled(s, p)
  {
    match s.procs[p].stage
    case DownFirst => Next(With(s, p, Consumer(DownMutex)).(full := s.full - 1))
    case DownMutex => Next(With(s, p, Consumer(Scan(0, 0))).(mutex := s.mutex - 1))
    case Scan(i, counter) =>
      Next(With(s, p, Consumer(if i < BUFFER_SIZE then Scan(i + 1, Scanned(s.buffer, i, counter)) else Access(counter - 1))))
    case Access(index) =>
      if 0 <= index < |s.buffer| then Next(With(s, p, Consumer(Clear(index)))) else Fault
    case Clear(index) =>
      if 0 <= index < |s.buffer|
      then Next(With(s, p, Consumer(UpMutex)).(buffer := s.buffer[index := 0], removed := s.removed + 1))
      else Fault
    case UpMutex => Next(With(s, p, Consumer(UpLast)).(mutex := s.mutex + 1))
    case UpLast => Next(With(s, p, Consumer(DownFirst)).(empty := s.empty + 1))
    case _ => Next(s)
  }

  /** Process p does its next operation. */
  function Step(s: State, p: nat): Outcome
    requires p < |s.procs| && Enabled(s, p)
  {
    if s.procs[p].Producer? then ProducerStep(s, p) else ConsumerStep(s, p)
  }

  // ---------------------------------------------------------------- sums over processes

  datatype Kind = Inside | Reserving | Filling | Taking | Freeing | Left | Makers | Rank

  /** What one process contributes to a sum. */
  function Weight(kind: Kind, q: Process): int {
    match kind
    case Inside => if q.stage.Scan? || q.stage.Access? || q.stage.Clear? || q.stage.UpMutex? then 1 else 0
    case Reserving => if q.Producer? && (q.stage.DownMutex? || q.stage.Scan? || q.stage.Access?) then 1 else 0
    case Filling => if q.Producer? && (q.stage.UpMutex? || q.stage.UpLast?) then 1 else 0
    case Taking =>
      if q.Consumer? && (q.stage.DownMutex? || q.stage.Scan? || q.stage.Access? || q.stage.Clear?) then 1 else 0
    case Freeing => if q.Consumer? && (q.stage.UpMutex? || q.stage.UpLast?) then 1 else 0
    case Left =>
      if q.Producer?
      then q.cnt + 1 + if q.stage.DownFirst? || q.stage.DownMutex? || q.stage.Scan? || q.stage.Access? then 1 else 0
      else 0
    case Makers => if q.Producer? then 1 else 0
    case Rank => if q.Producer? then 13 * ProducerRank(q.stage, q.cnt) else ConsumerRank(q.stage)
  }

  /** The steps a producer has before it is done. */
  function ProducerRank(stage: Stage, cnt: int): int {
    match stage
    case Test => 12 * cnt + 13
    case DownFirst => 12 * cnt + 24
    case DownMutex => 12 * cnt + 23
    case Scan(i, _) => 12 * cnt + 22 - i
    case Access(_) => 12 * cnt + 16
    case Clear(_) => 12 * cnt + 16
    case UpMutex => 12 * cnt + 15
    case UpLast => 12 * cnt + 14
    case Done => 0
  }

  /** The steps a consumer has before it waits for an item again. */
  function ConsumerRank(stage: Stage): int {
    match stage
    case DownMutex => 11
    case Scan(i, _) => 10 - i
    case Access(_) => 4
    case Clear(_) => 3
    case UpMutex => 2
    case UpLast => 1
    case _ => 0
  }

  function Sum(kind: Kind, procs: seq<Process>): int {
    if procs == [] then 0 else Weight(kind, procs[0]) + Sum(kind, procs[1..])
  }

  lemma {:induction false} SumUpdate(kind: Kind, procs: seq<Process>, p: nat, q: Process)
    requires p < |procs|
    ensures Sum(kind, procs[p := q]) == Sum(kind, procs) - Weight(kind, procs[p]) + Weight(kind, q)
  {
    if p == 0 {
      assert procs[0 := q][1..] == procs[1..];
    } else {
      assert procs[p := q][1..] == procs[1..][p - 1 := q];
      SumUpdate(kind, procs[1..], p - 1, q);
    }
  }

  ghost predicate AllWeigh(kind: Kind, procs: seq<Process>, w: int) {
    forall p :: 0 <= p < |procs| ==> Weight(kind, procs[p]) == w
  }

  lemma {:induction false} SumOfZeros(kind: Kind, procs: seq<Process>)
    requires AllWeigh(kind, procs, 0)
    ensures Sum(kind, procs) == 0
  {
    if procs != [] {
      assert AllWeigh(kind, procs[1..], 0);
      SumOfZeros(kind, procs[1..]);
    }
  }

  ghost predicate NoneNegative(kind: Kind, procs: seq<Process>) {
    forall p :: 0 <= p < |procs| ==> Weight(kind, procs[p]) >= 0
  }

  lemma {:induction false} SumAtMin(kind: Kind, procs: seq<Process>, p: nat)
    requires NoneNegative(kind, procs) && p < |procs|
    ensures Sum(kind, procs) >= Weight(kind, procs[p])
  {
    assert NoneNegative(kind, procs[1..]);
    SumNotNegative(kind, procs[1..]);
    if p > 0 {
      SumAtMin(kind, procs[1..], p - 1);
    }
  }

  lemma {:induction false} SumNotNegative(kind: Kind, procs: seq<Process>)
    requires NoneNegative(kind, procs)
    ensures Sum(kind, procs) >= 0
  {
    if procs != [] {
      assert NoneNegative(kind, procs[1..]);
      SumNotNegative(kind, procs[1..]);
    }
  }

  lemma {:induction false} SumAtLeastTwo(kind: Kind, procs: seq<Process>, p: nat, q: nat)
    requires NoneNegative(kind, procs) && p < q < |procs|
    ensures Sum(kind, procs) >= Weight(kind, procs[p]) + Weight(kind, procs[q])
  {
    assert NoneNegative(kind, procs[1..]);
    if p == 0 {
      SumAtMin(kind, procs[1..], q - 1);
    } else {
      SumAtLeastTwo(kind, procs[1..], p - 1, q - 1);
    }
  }

  // ---------------------------------------------------------------- the invariant

  /** Items in the buffer. */
  function Fill(s: State): int { s.stored - s.removed }

  /** What is owed to the semaphores. */
  ghost predicate Accounts(s: State) {
    && s.mutex >= 0 && s.empty >= 0 && s.full >= 0
    && s.mutex + Sum(Inside, s.procs) == 1
    && s.empty + Sum(Reserving, s.procs) + Fill(s) + Sum(Freeing, s.procs) == BUFFER_SIZE
    && s.full + Sum(Taking, s.procs) + Sum(Filling, s.procs) == Fill(s)
    && s.stored + Sum(Left, s.procs) == (LAST_CNT + 1) * Sum(Makers, s.procs)
  }

  /** What a process remembers is true of a buffer holding fill items. */
  predicate Fits(q: Process, fill: int) {
    && (q.Producer? ==> -1 <= q.cnt <= LAST_CNT)
    && match q.stage
       case Test => q.Producer?
       case Scan(i, counter) => i <= BUFFER_SIZE && counter == Min(i, fill)
       case Access(index) => index == if q.Producer? then fill else fill - 1
       case Clear(index) => q.Consumer? && index == fill - 1
       case Done => q.Producer? && q.cnt == -1
       case _ => true
  }

  ghost predicate AllFit(procs: seq<Process>, fill: int) {
    forall p :: 0 <= p < |procs| ==> Fits(procs[p], fill)
  }

  ghost predicate Inv(s: State) {
    Filled(s.buffer, Fill(s)) && Accounts(s) && AllFit(s.procs, Fill(s))
  }

  // ---------------------------------------------------------------- every step keeps it

  lemma SumsAfter(s: State, p: nat, q: Process)
    requires p < |s.procs|
    ensures forall kind :: Sum(kind, s.procs[p := q]) == Sum(kind, s.procs) - Weight(kind, s.procs[p]) + Weight(kind, q)
  {
    forall kind
      ensures Sum(kind, s.procs[p := q]) == Sum(kind, s.procs) - Weight(kind, s.procs[p]) + Weight(kind, q)
    {
      SumUpdate(kind, s.procs, p, q);
    }
  }

  /** A process moves between stages that touch neither a semaphore nor a slot. */
  lemma MoveKeepsInv(s: State, p: nat, q: Process)
    requires Inv(s) && p < |s.procs| && Fits(q, Fill(s))
    requires forall kind :: kind != Rank ==> Weight(kind, q) == Weight(kind, s.procs[p])
    ensures Inv(With(s, p, q))
  {
    SumsAfter(s, p, q);
  }

  lemma ProducerDownKeepsInv(s: State, p: nat)
    requires Inv(s) && p < |s.procs| && s.procs[p].Producer? && s.procs[p].stage == DownFirst && s.empty > 0
    ensures Inv(With(s, p, Producer(DownMutex, s.procs[p].cnt)).(empty := s.empty - 1))
  {
    SumsAfter(s, p, Producer(DownMutex, s.procs[p].cnt));
  }

  lemma ConsumerDownKeepsInv(s: State, p: nat)
    requires Inv(s) && p < |s.procs| && s.procs[p] == Consumer(DownFirst) && s.full > 0
    ensures Inv(With(s, p, Consumer(DownMutex)).(full := s.full - 1))
  {
    SumsAfter(s, p, Consumer(DownMutex));
  }

  lemma EnterKeepsInv(s: State, p: nat, q: Process)
    requires Inv(s) && p < |s.procs| && s.procs[p].stage == DownMutex && s.mutex > 0
    requires q == if s.procs[p].Producer? then Producer(Scan(0, 0), s.procs[p].cnt) else Consumer(Scan(0, 0))
    ensures Inv(With(s, p, q).(mutex := s.mutex - 1))
  {
    SumsAfter(s, p, q);
  }

  lemma LeaveKeepsInv(s: State, p: nat, q: Process)
    requires Inv(s) && p < |s.procs| && s.procs[p].stage == UpMutex
    requires q == if s.procs[p].Producer? then Producer(UpLast, s.procs[p].cnt) else Consumer(UpLast)
    ensures Inv(With(s, p, q).(mutex := s.mutex + 1))
  {
    SumsAfter(s, p, q);
  }

  lemma UpFullKeepsInv(s: State, p: nat)
    requires Inv(s) && p < |s.procs| && s.procs[p].stage == UpLast && s.procs[p].Producer?
    ensures Inv(With(s, p, Producer(Test, s.procs[p].cnt)).(full := s.full + 1))
  {
    SumsAfter(s, p, Producer(Test, s.procs[p].cnt));
  }

  lemma UpEmptyKeepsInv(s: State, p: nat)
    requires Inv(s) && p < |s.procs| && s.procs[p] == Consumer(UpLast)
    ensures Inv(With(s, p, Consumer(DownFirst)).(empty := s.empty + 1))
  {
    SumsAfter(s, p, Consumer(DownFirst));
  }

  /** No two processes are in the critical section. */
  ghost predicate Exclusive(s: State) {
    forall p, q :: 0 <= p < q < |s.procs| ==> Weight(Inside, s.procs[p]) == 0 || Weight(Inside, s.procs[q]) == 0
  }

  lemma MutualExclusion(s: State)
    requires Inv(s)
    ensures Exclusive(s)
  {
    forall p, q | 0 <= p < q < |s.procs|
      ensures Weight(Inside, s.procs[p]) == 0 || Weight(Inside, s.procs[q]) == 0
    {
      SumAtLeastTwo(Inside, s.procs, p, q);
    }
  }

  lemma OutsideStillFits(q: Process, fill: int, after: int)
    requires Fits(q, fill) && Weight(Inside, q) == 0
    ensures Fits(q, after)
  {
  }

  lemma OthersStillFit(s: State, p: nat, q: Process, after: int)
    requires Inv(s) && p < |s.procs| && Weight(Inside, s.procs[p]) == 1 && Fits(q, after)
    ensures AllFit(s.procs[p := q], after)
  {
    MutualExclusion(s);
    var t := s.procs[p := q];
    forall o | 0 <= o < |t|
      ensures Fits(t[o], after)
    {
      if o != p {
        assert Weight(Inside, s.procs[if o < p then o else p]) == 0 || Weight(Inside, s.procs[if o < p then p else o]) == 0;
        OutsideStillFits(s.procs[o], Fill(s), after);
      }
    }
  }

  /** A producer about to store holds one of the free slots. */
  lemma RoomToStore(s: State, p: nat)
    requires Inv(s) && p < |s.procs| && Weight(Reserving, s.procs[p]) == 1
    ensures Fill(s) < BUFFER_SIZE
  {
    SumAtMin(Reserving, s.procs, p);
    SumNotNegative(Freeing, s.procs);
  }

  /** A consumer about to take an item holds one of the items. */
  lemma ItemToTake(s: State, p: nat)
    requires Inv(s) && p < |s.procs| && Weight(Taking, s.procs[p]) == 1
    ensures Fill(s) > 0
  {
    SumAtMin(Taking, s.procs, p);
    SumNotNegative(Filling, s.procs);
  }

  function Stored(s: State, p: nat): State
    requires p < |s.procs| && s.procs[p].Producer? && 0 <= Fill(s) < |s.buffer|
  {
    With(s, p, Producer(UpMutex, s.procs[p].cnt)).(buffer := s.buffer[Fill(s) := ITEM], stored := s.stored + 1)
  }

  lemma StoreKeepsInv(s: State, p: nat)
    requires Inv(s) && p < |s.procs| && s.procs[p].Producer? && s.procs[p].stage.Access?
    ensures Fill(s) < BUFFER_SIZE && Inv(Stored(s, p))
  {
    RoomToStore(s, p);
    var q := Producer(UpMutex, s.procs[p].cnt);
    SumsAfter(s, p, q);
    OthersStillFit(s, p, q, Fill(s) + 1);
  }

  function Cleared(s: State, p: nat): State
    requires p < |s.procs| && 0 < Fill(s) <= |s.buffer|
  {
    With(s, p, Consumer(UpMutex)).(buffer := s.buffer[Fill(s) - 1 := 0], removed := s.removed + 1)
  }

  lemma ClearKeepsInv(s: State, p: nat)
    requires Inv(s) && p < |s.procs| && s.procs[p].Consumer? && s.procs[p].stage.Clear?
    ensures 0 < Fill(s) && Inv(Cleared(s, p))
  {
    ItemToTake(s, p);
    SumsAfter(s, p, Consumer(UpMutex));
    OthersStillFit(s, p, Consumer(UpMutex), Fill(s) - 1);
  }

  /** One more slot scanned. */
  lemma ScannedCounts(b: seq<int>, k: int, i: nat)
    requires Filled(b, k) && i < BUFFER_SIZE
    ensures Scanned(b, i, Min(i, k)) == Min(i + 1, k)
  {
  }

  lemma ProducerScanKeepsInv(s: State, p: nat)
    requires Inv(s) && p < |s.procs| && s.procs[p].Producer? && s.procs[p].stage.Scan?
    ensures Inv(ProducerStep(s, p).state)
  {
    var i := s.procs[p].stage.i;
    assert Fits(s.procs[p], Fill(s));
    if i < BUFFER_SIZE { ScannedCounts(s.buffer, Fill(s), i); }
    MoveKeepsInv(s, p, ProducerStep(s, p).state.procs[p]);
  }

  lemma ProducerKeepsInv(s: State, p: nat)
    requires Inv(s) && p < |s.procs| && s.procs[p].Producer? && Enabled(s, p)
    ensures ProducerStep(s, p).Next? && Inv(ProducerStep(s, p).state)
  {
    var cnt := s.procs[p].cnt;
    assert Fits(s.procs[p], Fill(s));
    match s.procs[p].stage
    case Test => MoveKeepsInv(s, p, if cnt >= 0 then Producer(DownFirst, cnt - 1) else Producer(Done, cnt));
    case DownFirst => ProducerDownKeepsInv(s, p);
    case DownMutex => EnterKeepsInv(s, p, Producer(Scan(0, 0), cnt));
    case Scan(_, _) => ProducerScanKeepsInv(s, p);
    case Access(_) => StoreKeepsInv(s, p);
    case UpMutex => LeaveKeepsInv(s, p, Producer(UpLast, cnt));
    case UpLast => UpFullKeepsInv(s, p);
    case _ =>
  }

  lemma ConsumerScanKeepsInv(s: State, p: nat)
    requires Inv(s) && p < |s.procs| && s.procs[p].Consumer? && s.procs[p].stage.Scan?
    ensures Inv(ConsumerStep(s, p).state)
  {
    var i := s.procs[p].stage.i;
    assert Fits(s.procs[p], Fill(s));
    if i < BUFFER_SIZE { ScannedCounts(s.buffer, Fill(s), i); }
    MoveKeepsInv(s, p, ConsumerStep(s, p).state.procs[p]);
  }

  lemma LoadKeepsInv(s: State, p: nat)
    requires Inv(s) && p < |s.procs| && s.procs[p].Consumer? && s.procs[p].stage.Access?
    ensures ConsumerStep(s, p).Next? && Inv(ConsumerStep(s, p).state)
  {
    assert Fits(s.procs[p], Fill(s));
    ItemToTake(s, p);
    MoveKeepsInv(s, p, Consumer(Clear(s.procs[p].stage.index)));
  }

  /** The steps of a consumer that change a semaphore. */
  lemma ConsumerSemaphoreKeepsInv(s: State, p: nat)
    requires Inv(s) && p < |s.procs| && s.procs[p].Consumer? && Enabled(s, p)
    requires var st := s.procs[p].stage; st.DownFirst? || st.DownMutex? || st.UpMutex? || st.UpLast?
    ensures ConsumerStep(s, p).Next? && Inv(ConsumerStep(s, p).state)
  {
    match s.procs[p].stage
    case DownFirst => ConsumerDownKeepsInv(s, p);
    case DownMutex => EnterKeepsInv(s, p, Consumer(Scan(0, 0)));
    case UpMutex => LeaveKeepsInv(s, p, Consumer(UpLast));
    case UpLast => UpEmptyKeepsInv(s, p);
  }

  lemma ConsumerClearKeepsInv(s: State, p: nat)
    requires Inv(s) && p < |s.procs| && s.procs[p].Consumer? && s.procs[p].stage.Clear?
    ensures ConsumerStep(s, p).Next? && Inv(ConsumerStep(s, p).state)
  {
    assert Fits(s.procs[p], Fill(s));
    ClearKeepsInv(s, p);
  }

  lemma ConsumerKeepsInv(s: State, p: nat)
    requires Inv(s) && p < |s.procs| && s.procs[p].Consumer? && Enabled(s, p)
    ensures ConsumerStep(s, p).Next? && Inv(ConsumerStep(s, p).state)
  {
    assert Fits(s.procs[p], Fill(s));
    match s.procs[p].stage
    case Scan(_, _) => ConsumerScanKeepsInv(s, p);
    case Access(_) => LoadKeepsInv(s, p);
    case Clear(_) => ConsumerClearKeepsInv(s, p);
    case Test =>
    case Done =>
    case _ => ConsumerSemaphoreKeepsInv(s, p);
  }

  lemma StepKeepsInv(s: State, p: nat)
    requires Inv(s) && p < |s.procs| && Enabled(s, p)
    ensures Step(s, p).Next? && Inv(Step(s, p).state)
  {
    if s.procs[p].Producer? {
      ProducerKeepsInv(s, p);
    } else {
      ConsumerKeepsInv(s, p);
    }
  }

  // ---------------------------------------------------------------- whole runs

  predicate InitialProcess(q: Process) {
    q == Producer(Test, LAST_CNT) || q == Consumer(DownFirst)
  }

  lemma {:induction false} InitialSums(procs: seq<Process>)
    requires forall p :: 0 <= p < |procs| ==> InitialProcess(procs[p])
    ensures Sum(Left, procs) == (LAST_CNT + 1) * Sum(Makers, procs)
    ensures Sum(Rank, procs) == STEPS_PER_PRODUCER * Sum(Makers, procs)
  {
    if procs != [] {
      assert InitialProcess(procs[0]);
      InitialSums(procs[1..]);
    }
  }

  const STEPS_PER_PRODUCER := 1729

  lemma InitialInv(s: State)
    requires IsInitial(s)
    ensures Inv(s)
  {
    InitialSums(s.procs);
    SumOfZeros(Inside, s.procs);
    SumOfZeros(Reserving, s.procs);
    SumOfZeros(Freeing, s.procs);
    SumOfZeros(Taking, s.procs);
    SumOfZeros(Filling, s.procs);
  }

  /** The schedule says which process moves next; states are what it leads through. */
  ghost predicate IsRun(states: seq<State>, schedule: seq<nat>) {
    && |states| == |schedule| + 1 && IsInitial(states[0])
    && forall k :: 0 <= k < |schedule| ==> Follows(states[k], schedule[k], states[k + 1])
  }

  predicate Follows(s: State, p: nat, t: State) {
    p < |s.procs| && Enabled(s, p) && Step(s, p) == Next(t)
  }

  lemma {:induction false} RunKeepsInv(states: seq<State>, schedule: seq<nat>, k: nat)
    requires IsRun(states, schedule) && k <= |schedule|
    ensures Inv(states[k])
  {
    if k == 0 {
      InitialInv(states[0]);
    } else {
      RunKeepsInv(states, schedule, k - 1);
      assert Follows(states[k - 1], schedule[k - 1], states[k]);
      StepKeepsInv(states[k - 1], schedule[k - 1]);
    }
  }

  /**
   Every reachable state, under every schedule: at most one process is in the critical
   section, the buffer is stored - removed items followed by clear slots, and no process can
   step outside the buffer.
   */
  lemma EveryRunIsSafe(states: seq<State>, schedule: seq<nat>, k: nat)
    requires IsRun(states, schedule) && k <= |schedule|
    ensures Exclusive(states[k])
    ensures Filled(states[k].buffer, states[k].stored - states[k].removed)
    ensures forall p :: 0 <= p < |states[k].procs| && Enabled(states[k], p) ==> Step(states[k], p).Next?
  {
    RunKeepsInv(states, schedule, k);
    MutualExclusion(states[k]);
    forall p | 0 <= p < |states[k].procs| && Enabled(states[k], p)
      ensures Step(states[k], p).Next?
    {
      StepKeepsInv(states[k], p);
    }
  }

  /** What one step takes away from. */
  function Potential(s: State): int { Sum(Rank, s.procs) + 12 * s.full }

  /** One step of process p, by its own rank and by what it does to full. */
  lemma StepDescends(s: State, p: nat)
    requires Inv(s) && p < |s.procs| && Enabled(s, p) && Step(s, p).Next?
    ensures Potential(Step(s, p).state) < Potential(s)
    ensures Sum(Makers, Step(s, p).state.procs) == Sum(Makers, s.procs)
  {
    var t := Step(s, p).state;
    assert Fits(s.procs[p], Fill(s));
    StepChangesOne(s, p);
    RankDescends(s, p);
    SumUpdate(Rank, s.procs, p, t.procs[p]);
    SumUpdate(Makers, s.procs, p, t.procs[p]);
  }

  lemma StepChangesOne(s: State, p: nat)
    requires p < |s.procs| && Enabled(s, p) && Step(s, p).Next?
    ensures var t := Step(s, p).state; |t.procs| == |s.procs| && t.procs == s.procs[p := t.procs[p]]
    ensures Step(s, p).state.procs[p].Producer? == s.procs[p].Producer?
  {
  }

  lemma RankDescends(s: State, p: nat)
    requires p < |s.procs| && Enabled(s, p) && Step(s, p).Next? && Fits(s.procs[p], Fill(s))
    requires |Step(s, p).state.procs| == |s.procs|
    ensures var t := Step(s, p).state;
      Weight(Rank, t.procs[p]) + 12 * t.full < Weight(Rank, s.procs[p]) + 12 * s.full
  {
  }

  lemma PotentialNotNegative(s: State)
    requires Inv(s)
    ensures Potential(s) >= 0
  {
    forall p | 0 <= p < |s.procs|
      ensures Weight(Rank, s.procs[p]) >= 0
    {
      assert Fits(s.procs[p], Fill(s));
    }
    SumNotNegative(Rank, s.procs);
  }

  lemma {:induction false} RunDescends(states: seq<State>, schedule: seq<nat>, k: nat)
    requires IsRun(states, schedule) && k <= |schedule|
    ensures Potential(states[k]) + k <= Potential(states[0])
    ensures Sum(Makers, states[k].procs) == Sum(Makers, states[0].procs)
  {
    if k > 0 {
      RunDescends(states, schedule, k - 1);
      RunKeepsInv(states, schedule, k - 1);
      assert Follows(states[k - 1], schedule[k - 1], states[k]);
      StepDescends(states[k - 1], schedule[k - 1]);
    }
  }

  function Producers(procs: seq<Process>): nat {
    if procs == [] then 0 else Producers(procs[1..]) + if procs[0].Producer? then 1 else 0
  }

  lemma {:induction false} MakersAreProducers(procs: seq<Process>)
    ensures Sum(Makers, procs) == Producers(procs)
  {
    if procs != [] {
      MakersAreProducers(procs[1..]);
    }
  }

  /** No schedule runs for ever: producers bring a fixed number of steps each, consumers none. */
  lemma EveryRunEnds(states: seq<State>, schedule: seq<nat>)
    requires IsRun(states, schedule)
    ensures |schedule| <= 1729 * Producers(states[0].procs)
  {
    MakersAreProducers(states[0].procs);
    RunDescends(states, schedule, |schedule|);
    RunKeepsInv(states, schedule, |schedule|);
    PotentialNotNegative(states[|schedule|]);
    InitialSums(states[0].procs);
  }

  // ---------------------------------------------------------------- where runs end

  ghost predicate Stuck(s: State) {
    forall p :: 0 <= p < |s.procs| ==> !Enabled(s, p)
  }

  /** A process that cannot move is done, or waits for its first semaphore. */
  predicate Waits(q: Process) { q.stage == DownFirst || q.stage == Done }

  lemma {:induction false} SomeWeigh(kind: Kind, procs: seq<Process>) returns (p: nat)
    requires Sum(kind, procs) > 0
    ensures p < |procs| && Weight(kind, procs[p]) > 0
  {
    if Weight(kind, procs[0]) > 0 {
      p := 0;
    } else {
      var q := SomeWeigh(kind, procs[1..]);
      p := q + 1;
    }
  }

  lemma StuckMutexFree(s: State)
    requires Inv(s) && Stuck(s)
    ensures s.mutex == 1
  {
    if Sum(Inside, s.procs) > 0 {
      var p := SomeWeigh(Inside, s.procs);
      assert Enabled(s, p);
    }
    SumNotNegative(Inside, s.procs);
  }

  lemma StuckWaits(s: State, p: nat)
    requires Inv(s) && Stuck(s) && p < |s.procs|
    ensures Waits(s.procs[p])
  {
    StuckMutexFree(s);
    assert !Enabled(s, p);
  }

  lemma StuckAccounts(s: State)
    requires Inv(s) && Stuck(s)
    ensures s.empty + Fill(s) == BUFFER_SIZE && s.full == Fill(s)
  {
    forall p | 0 <= p < |s.procs|
      ensures Waits(s.procs[p])
    {
      StuckWaits(s, p);
    }
    SumOfZeros(Reserving, s.procs);
    SumOfZeros(Freeing, s.procs);
    SumOfZeros(Taking, s.procs);
    SumOfZeros(Filling, s.procs);
  }

  lemma StuckProducerDone(s: State, p: nat)
    requires Inv(s) && Stuck(s) && p < |s.procs| && s.empty > 0
    ensures Weight(Left, s.procs[p]) == 0
  {
    StuckWaits(s, p);
    assert !Enabled(s, p);
    assert Fits(s.procs[p], Fill(s));
  }

  /**
   No deadlock and nothing lost: with a consumer present, a run that can go no further has
   stored eleven items for every producer and removed them all; the five slots are clear.
   */
  lemma StuckMeansFinished(states: seq<State>, schedule: seq<nat>, c: nat)
    requires IsRun(states, schedule)
    requires var s := states[|schedule|]; Stuck(s) && c < |s.procs| && s.procs[c].Consumer?
    ensures var s := states[|schedule|];
      && s.stored == 11 * Producers(states[0].procs) && s.removed == s.stored
      && s.buffer == [0, 0, 0, 0, 0]
  {
    MakersAreProducers(states[0].procs);
    var s := states[|schedule|];
    RunKeepsInv(states, schedule, |schedule|);
    RunDescends(states, schedule, |schedule|);
    StuckAccounts(s);
    StuckWaits(s, c);
    assert Fits(s.procs[c], Fill(s));
    assert !Enabled(s, c);
    forall p | 0 <= p < |s.procs|
      ensures Weight(Left, s.procs[p]) == 0
    {
      StuckProducerDone(s, p);
    }
    SumOfZeros(Left, s.procs);
  }
}
