/** What the hand-off protocol guarantees in every interleaving, and where its guarantees end. */
module RingTheorems {
  import opened SlotIndex
  import opened Wrappers
  import opened RingInvariant
  import opened RingMachine
  import opened RingSteps

  /** Some number of threads on a fresh ring reaches `st` under some schedule. */
  ghost predicate Reachable(st: State) {
    |st.slots| > 0 && exists threads, schedule :: st == Run(Init(|st.slots|, threads), schedule)
  }

  lemma ReachableOk(st: State)
    requires Reachable(st) && |st.slots| >= 2
    ensures Invariant(st)
  {
    var threads, schedule :| st == Run(Init(|st.slots|, threads), schedule);
    InitOk(|st.slots|, threads);
    RunKeeps(Init(|st.slots|, threads), schedule);
  }

  lemma {:induction false} RunAppend(st: State, a: seq<Move>, b: seq<Move>)
    requires |st.slots| > 0
    ensures Run(st, a + b) == Run(Run(st, a), b)
    decreases |a|
  {
    if a == [] {
      assert a + b == b;
    } else {
      assert (a + b)[0] == a[0] && (a + b)[1..] == a[1..] + b;
      RunAppend(Step(st, a[0]), a[1..], b);
    }
  }

  /** Runs extend: whatever a further schedule leads to is reachable too. */
  lemma RunReachable(st: State, schedule: seq<Move>)
    requires Reachable(st)
    ensures Reachable(Run(st, schedule))
  {
    var threads, past :| st == Run(Init(|st.slots|, threads), past);
    RunAppend(Init(|st.slots|, threads), past, schedule);
  }

  // ---------------------------------------------------------------------------------------------
  // First in, first out
  // ---------------------------------------------------------------------------------------------

  /** No consumer is between its winning CAS and its callback. */
  ghost predicate Quiescent(st: State) {
    forall t :: 0 <= t < |st.threads| ==> !st.threads[t].DrainTake? && !st.threads[t].DrainCallback?
  }

  /**
   The callbacks see each pushed item at most once, each under the sequence number it was pushed
   with, and a won sequence number stays undelivered only while its winner is before its callback.
   */
  lemma DeliveredOnce(st: State)
    requires Reachable(st) && |st.slots| >= 2
    ensures st.consumer <= |st.pushed| && |st.takers| == st.consumer
    ensures forall k :: 0 <= k < |st.delivered| ==>
              st.delivered[k].at < st.consumer && st.delivered[k].item == st.pushed[st.delivered[k].at]
    ensures forall j, k :: 0 <= j < k < |st.delivered| ==> st.delivered[j].at != st.delivered[k].at
    ensures forall c :: 0 <= c < st.consumer ==>
              || (exists k :: 0 <= k < |st.delivered| && st.delivered[k].at == c)
              || (st.takers[c] < |st.threads| && AwaitsCallback(st.threads[st.takers[c]], c))
  {
    ReachableOk(st);
    forall c | 0 <= c < st.consumer && !AwaitsCallback(st.threads[st.takers[c]], c)
      ensures exists k :: 0 <= k < |st.delivered| && st.delivered[k].at == c
    {
      assert c in st.position;
      assert st.delivered[st.position[c]].at == c;
    }
  }

  /** The delivered items in order of winning consumer CAS. */
  ghost function ItemsByWin(st: State): seq<Item>
    requires forall c :: 0 <= c < st.consumer ==> c in st.position && st.position[c] < |st.delivered|
  {
    seq(st.consumer, c requires 0 <= c < st.consumer => st.delivered[st.position[c]].item)
  }

  lemma QuiescentPositions(st: State)
    requires Counters(st) && History(st) && Quiescent(st)
    ensures forall c :: 0 <= c < st.consumer ==> c in st.position && st.position[c] < |st.delivered|
  {
    forall c | 0 <= c < st.consumer ensures c in st.position {
      assert !AwaitsCallback(st.threads[st.takers[c]], c);
    }
  }

  lemma QuiescentCount(st: State)
    requires Counters(st) && History(st) && Quiescent(st)
    ensures |st.delivered| == st.consumer
  {
    QuiescentPositions(st);
    var ats := seq(|st.delivered|, k requires 0 <= k < |st.delivered| => st.delivered[k].at);
    forall j, k | 0 <= j < k < |ats| ensures ats[j] != ats[k] {
      assert st.position[ats[j]] == j && st.position[ats[k]] == k;
    }
    forall c | 0 <= c < st.consumer ensures c in ats {
      assert ats[st.position[c]] == c;
    }
    Enumeration(ats, st.consumer);
  }

  /** A duplicate-free enumeration of the numbers below `n` has length `n`. */
  lemma {:induction false} Enumeration(s: seq<nat>, n: nat)
    requires forall j, k :: 0 <= j < k < |s| ==> s[j] != s[k]
    requires forall k :: 0 <= k < |s| ==> s[k] < n
    requires forall c :: 0 <= c < n ==> c in s
    ensures |s| == n
    decreases n
  {
    if n > 0 {
      assert n - 1 in s;
      var k :| 0 <= k < |s| && s[k] == n - 1;
      var rest := s[..k] + s[k + 1..];
      forall c | 0 <= c < n - 1 ensures c in rest {
        assert c in s;
        var i :| 0 <= i < |s| && s[i] == c;
        assert rest[if i < k then i else i - 1] == c;
      }
      Enumeration(rest, n - 1);
    }
  }

  lemma DeliveredItem(st: State, c: nat)
    requires Counters(st) && History(st) && c in st.position
    ensures c < st.producer && st.position[c] < |st.delivered| && st.delivered[st.position[c]].item == st.pushed[c]
  {
    assert st.delivered[st.position[c]].at == c;
  }

  lemma ItemsByWinArePushed(st: State)
    requires Counters(st) && History(st)
    requires forall c :: 0 <= c < st.consumer ==> c in st.position && st.position[c] < |st.delivered|
    ensures ItemsByWin(st) == st.pushed[..st.consumer]
  {
    forall c: nat | c < st.consumer ensures ItemsByWin(st)[c] == st.pushed[c] {
      DeliveredItem(st, c);
    }
  }

  lemma QuiescentPrefix(st: State)
    requires Counters(st) && History(st) && Quiescent(st)
    ensures forall c :: 0 <= c < st.consumer ==> c in st.position && st.position[c] < |st.delivered|
    ensures ItemsByWin(st) <= st.pushed
  {
    QuiescentPositions(st);
    ItemsByWinArePushed(st);
  }

  /**
   Linearizable FIFO: with no callback pending, the items consumed in order of winning consumer CAS
   are exactly the first `consumer` items in order of winning producer CAS, one callback each.
   */
  lemma ConsumedIsPrefixOfPushed(st: State)
    requires Reachable(st) && |st.slots| >= 2 && Quiescent(st)
    ensures forall c :: 0 <= c < st.consumer ==> c in st.position && st.position[c] < |st.delivered|
    ensures ItemsByWin(st) <= st.pushed
    ensures |st.delivered| == st.consumer <= st.producer == |st.pushed|
  {
    ReachableOk(st);
    QuiescentPrefix(st);
    QuiescentCount(st);
  }

  /**
   Nothing is lost: a claimed sequence number is with its producer, published in its slot, with the
   consumer that won it, or delivered.
   */
  lemma NothingLost(st: State, s: nat)
    requires Reachable(st) && |st.slots| >= 2 && s < st.producer
    ensures |st.pushed| == |st.pushers| == st.producer && |st.takers| == st.consumer
    ensures s >= st.consumer ==>
              || (At(st, s).sequence == s + 1 && At(st, s).data == Some(st.pushed[s]))
              || (st.pushers[s] < |st.threads| &&
                  (var pc := st.threads[st.pushers[s]];
                   || pc == PushWait(st.pushed[s], s)
                   || pc == PushWrite(st.pushed[s], s)
                   || pc == PushPublish(st.pushed[s], s)))
    ensures s < st.consumer ==>
              || (&& s in st.position && st.position[s] < |st.delivered|
                  && st.delivered[st.position[s]] == Delivery(s, st.pushed[s]))
              || (st.takers[s] < |st.threads| &&
                  (var pc := st.threads[st.takers[s]];
                   || (pc.DrainTake? && pc.c == s && At(st, s).data == Some(st.pushed[s]))
                   || (pc.DrainCallback? && pc.c == s && pc.found == Some(st.pushed[s]))))
  {
    ReachableOk(st);
    if s >= st.consumer {
      assert SlotOk(st, s);
    } else {
      assert ThreadOk(st, st.takers[s]);
      if st.threads[st.takers[s]].DrainTake? && st.threads[st.takers[s]].c == s {
        assert SlotOk(st, s + |st.slots|);
        SameSlot(st, s);
      }
    }
  }

  /** The abstract queue: claimed by a producer and not yet won by a consumer, oldest first. */
  function Queue(st: State): seq<Item>
    requires st.consumer <= st.producer == |st.pushed|
  {
    st.pushed[st.consumer..]
  }

  datatype QueueOp = Stutter | Enqueue(x: Item) | Dequeue(y: Item)

  /** The specification: a FIFO queue that never holds more than `capacity` items. */
  ghost predicate QueueStep(capacity: nat, before: seq<Item>, op: QueueOp, after: seq<Item>) {
    match op
    case Stutter => after == before
    case Enqueue(x) => |before| < capacity && after == before + [x]
    case Dequeue(y) => before == [y] + after
  }

  /** The linearization point a move is: a winning CAS. */
  function Linearizes(st: State, m: Move): QueueOp
    requires st.consumer <= st.producer == |st.pushed|
  {
    if m.action.Go? && m.thread < |st.threads| then
      var pc := st.threads[m.thread];
      if pc.PushCas? && pc.p == st.producer then Enqueue(pc.item)
      else if pc.DrainCas? && pc.c == st.consumer && st.consumer < st.producer then Dequeue(st.pushed[st.consumer])
      else Stutter
    else Stutter
  }

  lemma ThreadStepShared(st: State, t: nat, casMayWin: bool)
    requires Live(st, t)
    ensures var end := ThreadStep(st, t, casMayWin);
            var pc := st.threads[t];
            var claims := casMayWin && pc.PushCas? && pc.p == st.producer;
            var wins := casMayWin && pc.DrainCas? && pc.c == st.consumer;
            && end.producer == (if claims then st.producer + 1 else st.producer)
            && end.pushed == (if claims then st.pushed + [pc.item] else st.pushed)
            && end.consumer == (if wins then st.consumer + 1 else st.consumer)
  {
  }

  /** What a move does to the counters and the pushed items is what its linearization says. */
  lemma StepShared(st: State, m: Move)
    requires Counters(st) && (m.thread < |st.threads| ==> ThreadOk(st, m.thread))
    ensures var end := Step(st, m);
            match Linearizes(st, m)
            case Stutter => end.producer == st.producer && end.consumer == st.consumer && end.pushed == st.pushed
            case Enqueue(x) =>
              && end.producer == st.producer + 1 && end.consumer == st.consumer && end.pushed == st.pushed + [x]
              && st.producer < st.consumer + |st.slots|
            case Dequeue(y) =>
              && end.producer == st.producer && end.consumer == st.consumer + 1 && end.pushed == st.pushed
              && st.consumer < st.producer && y == st.pushed[st.consumer]
  {
    if m.thread < |st.threads| && (m.action.Go? || m.action.SpuriousFailure?) {
      ThreadStepShared(st, m.thread, m.action.Go?);
    }
  }

  /** Every move refines the bounded FIFO queue: each enqueue and dequeue is exactly one winning CAS. */
  lemma MoveRefinesQueue(st: State, m: Move)
    requires Reachable(st) && |st.slots| >= 2
    ensures st.consumer <= st.producer == |st.pushed|
    ensures Step(st, m).consumer <= Step(st, m).producer == |Step(st, m).pushed|
    ensures QueueStep(|st.slots|, Queue(st), Linearizes(st, m), Queue(Step(st, m)))
  {
    ReachableOk(st);
    if m.thread < |st.threads| { assert ThreadOk(st, m.thread); }
    StepShared(st, m);
  }

  // ---------------------------------------------------------------------------------------------
  // Exclusion
  // ---------------------------------------------------------------------------------------------

  /** The thread may touch the data cell of the slot of `pc`'s sequence number. */
  ghost predicate InAccessWindow(pc: Pc) {
    pc.PushWrite? || pc.PushPublish? || pc.DrainTake? || pc.DrainCallback? || pc.DrainRelease?
  }

  ghost function AccessedSequence(pc: Pc): nat
    requires InAccessWindow(pc)
  {
    if pc.PushWrite? || pc.PushPublish? then pc.p else pc.c
  }

  /** No two threads are inside the data-access window of one slot. */
  ghost predicate Exclusive(st: State) {
    |st.slots| > 0 &&
    forall t, u :: 0 <= t < u < |st.threads| && InAccessWindow(st.threads[t]) && InAccessWindow(st.threads[u]) ==>
      Index(AccessedSequence(st.threads[t]), |st.slots|) != Index(AccessedSequence(st.threads[u]), |st.slots|)
  }

  /** The window member whose slot a thread in its access window stands on. */
  lemma AccessInWindow(st: State, t: nat) returns (s: nat)
    requires Counters(st) && |st.slots| >= 2 && t < |st.threads| && ThreadOk(st, t) && InAccessWindow(st.threads[t])
    ensures InWindow(st, s) && Index(s, |st.slots|) == Index(AccessedSequence(st.threads[t]), |st.slots|)
    ensures IsPush(st.threads[t]) ==> s < st.producer && st.pushers[s] == t && At(st, s).sequence == s
    ensures !IsPush(st.threads[t]) ==>
              s >= |st.slots| && st.takers[s - |st.slots|] == t && At(st, s).sequence == s + 1 - |st.slots|
  {
    var a := AccessedSequence(st.threads[t]);
    SameSlot(st, a);
    s := if IsPush(st.threads[t]) then a else a + |st.slots|;
  }

  lemma PairExclusion(st: State, t: nat, u: nat)
    requires Counters(st) && |st.slots| >= 2 && t < u < |st.threads| && ThreadOk(st, t) && ThreadOk(st, u)
    requires InAccessWindow(st.threads[t]) && InAccessWindow(st.threads[u])
    ensures Index(AccessedSequence(st.threads[t]), |st.slots|) != Index(AccessedSequence(st.threads[u]), |st.slots|)
  {
    var s := AccessInWindow(st, t);
    var r := AccessInWindow(st, u);
    if s < r { IndexInjective(s, r, |st.slots|); }
    if r < s { IndexInjective(r, s, |st.slots|); }
  }

  /** With at least two slots no reachable state has two threads in the access window of one slot. */
  lemma SlotExclusion(st: State)
    requires Reachable(st) && |st.slots| >= 2
    ensures Exclusive(st)
  {
    ReachableOk(st);
    forall t, u | 0 <= t < u < |st.threads| && InAccessWindow(st.threads[t]) && InAccessWindow(st.threads[u])
      ensures Index(AccessedSequence(st.threads[t]), |st.slots|) != Index(AccessedSequence(st.threads[u]), |st.slots|)
    {
      assert ThreadOk(st, t) && ThreadOk(st, u);
      PairExclusion(st, t, u);
    }
  }

  /**
   A winner always finds its item. A finished push owns the sequence number it reports, with its own
   item; a finished drain counted exactly its won CASes, within its batch.
   */
  lemma CallsReportTruthfully(st: State, t: nat)
    requires Reachable(st) && |st.slots| >= 2 && t < |st.threads|
    ensures |st.pushed| == |st.pushers| == st.producer
    ensures st.threads[t].DrainCallback? ==>
              st.threads[t].c < st.producer && st.threads[t].found == Some(st.pushed[st.threads[t].c])
    ensures st.threads[t].Idle? && st.threads[t].last.Drained? ==>
              var d := st.threads[t].last.drain; d.count == d.wins <= d.batch
    ensures st.threads[t].Idle? && st.threads[t].last.Pushed? ==>
              var at := st.threads[t].last.at;
              at < st.producer && st.pushers[at] == t && st.pushed[at] == st.threads[t].last.item
  {
    ReachableOk(st);
    assert ThreadOk(st, t);
  }

  /** One step of a push keeps its item. */
  lemma PushStepKeepsItem(st: State, t: nat, casMayWin: bool)
    requires Live(st, t) && IsPush(st.threads[t])
    ensures var item, next := st.threads[t].item, ThreadStep(st, t, casMayWin).threads[t];
            || (IsPush(next) && next.item == item)
            || (next.Idle? && (next.last.Pushed? || next.last.Full?) && next.last.item == item)
  {
  }

  /** The call of `pc` is a drain of the same mode and batch as `from`, running or returned. */
  predicate SameDrain(from: Drain, pc: Pc) {
    if pc.Idle? then pc.last.Drained? && pc.last.drain.helping == from.helping && pc.last.drain.batch == from.batch
    else !IsPush(pc) && pc.drain.helping == from.helping && pc.drain.batch == from.batch
  }

  lemma LookingKeepsArguments(st: State, t: nat, casMayWin: bool)
    requires Live(st, t) && IsLooking(st.threads[t])
    ensures SameDrain(st.threads[t].drain, ThreadStep(st, t, casMayWin).threads[t])
  {
  }

  lemma CasKeepsArguments(st: State, t: nat, casMayWin: bool)
    requires Live(st, t) && st.threads[t].DrainCas?
    ensures SameDrain(st.threads[t].drain, ThreadStep(st, t, casMayWin).threads[t])
  {
  }

  lemma HoldingKeepsArguments(st: State, t: nat, casMayWin: bool)
    requires Live(st, t) && IsHolding(st.threads[t])
    ensures SameDrain(st.threads[t].drain, ThreadStep(st, t, casMayWin).threads[t])
  {
  }

  /** One step of a drain keeps its mode and batch. */
  lemma DrainStepKeepsArguments(st: State, t: nat, casMayWin: bool)
    requires Live(st, t) && !IsPush(st.threads[t]) && !st.threads[t].Idle?
    ensures SameDrain(st.threads[t].drain, ThreadStep(st, t, casMayWin).threads[t])
  {
    if IsLooking(st.threads[t]) {
      LookingKeepsArguments(st, t, casMayWin);
    } else if IsHolding(st.threads[t]) {
      HoldingKeepsArguments(st, t, casMayWin);
    } else {
      CasKeepsArguments(st, t, casMayWin);
    }
  }

  // ---------------------------------------------------------------------------------------------
  // Counters under stale loads
  // ---------------------------------------------------------------------------------------------

  lemma {:induction false} CountersGrow(st: State, schedule: seq<Move>)
    requires Invariant(st)
    ensures st.producer <= Run(st, schedule).producer && st.consumer <= Run(st, schedule).consumer
    decreases |schedule|
  {
    if schedule != [] {
      var m := schedule[0];
      StepKeeps(st, m);
      if m.thread < |st.threads| { assert ThreadOk(st, m.thread); }
      StepShared(st, m);
      CountersGrow(Step(st, m), schedule[1..]);
    }
  }

  /**
   The counters stay within one capacity of each other, and a consumer counter loaded in one state
   never exceeds a producer counter loaded in any later one: the subtractions of `try_push` and
   `len` cannot underflow however long the two loads are apart.
   */
  lemma ConsumerFirstNeverUnderflows(st: State, between: seq<Move>)
    requires Reachable(st) && |st.slots| >= 2
    ensures st.consumer <= st.producer <= st.consumer + |st.slots|
    ensures st.consumer <= Run(st, between).producer
  {
    ReachableOk(st);
    CountersGrow(st, between);
  }

  /** Why a drain returned by this step. */
  ghost predicate HasReason(st: State, t: nat, casMayWin: bool)
    requires Live(st, t)
  {
    var pc, next := st.threads[t], ThreadStep(st, t, casMayWin).threads[t];
    next.Idle? && next.last.Drained? ==>
      var d := next.last.drain;
      || d.count == d.batch
      || (pc.DrainLoadProducer? && pc.c == st.consumer == st.producer)
      || (d.helping && pc.DrainWait? && At(st, pc.c).sequence != pc.c + 1)
      || (d.helping && pc.DrainCas? && (!casMayWin || st.consumer != pc.c))
  }

  lemma LookingHasReason(st: State, t: nat, casMayWin: bool)
    requires Counters(st) && t < |st.threads| && ThreadOk(st, t) && IsLooking(st.threads[t])
    ensures HasReason(st, t, casMayWin)
  {
  }

  lemma CasHasReason(st: State, t: nat, casMayWin: bool)
    requires Live(st, t) && st.threads[t].DrainCas?
    ensures HasReason(st, t, casMayWin)
  {
  }

  lemma HoldingHasReason(st: State, t: nat, casMayWin: bool)
    requires Counters(st) && t < |st.threads| && ThreadOk(st, t) && IsHolding(st.threads[t])
    ensures HasReason(st, t, casMayWin)
  {
  }

  lemma PushIsNoDrain(st: State, t: nat, casMayWin: bool)
    requires Live(st, t) && IsPush(st.threads[t])
    ensures HasReason(st, t, casMayWin)
  {
    PushStepKeepsItem(st, t, casMayWin);
  }

  /** A drain that stops short saw a truly empty ring; a helper also stops at an unpublished slot or a lost CAS. */
  lemma DrainStopsForAReason(st: State, m: Move)
    requires Reachable(st) && |st.slots| >= 2 && m.thread < |st.threads|
    requires !st.threads[m.thread].Idle? && Step(st, m).threads[m.thread].Idle?
    requires Step(st, m).threads[m.thread].last.Drained?
    ensures var d := Step(st, m).threads[m.thread].last.drain;
            var pc := st.threads[m.thread];
            || d.count == d.batch
            || (pc.DrainLoadProducer? && pc.c == st.consumer == st.producer)
            || (d.helping && pc.DrainWait? && At(st, pc.c).sequence != pc.c + 1)
            || (d.helping && pc.DrainCas? && (m.action.SpuriousFailure? || st.consumer != pc.c))
  {
    ReachableOk(st);
    var t, pc := m.thread, st.threads[m.thread];
    assert ThreadOk(st, t);
    assert Step(st, m) == ThreadStep(st, t, m.action.Go?);
    if IsPush(pc) {
      PushIsNoDrain(st, t, m.action.Go?);
    } else if IsLooking(pc) {
      LookingHasReason(st, t, m.action.Go?);
    } else if IsHolding(pc) {
      HoldingHasReason(st, t, m.action.Go?);
    } else {
      CasHasReason(st, t, m.action.Go?);
    }
  }

  // ---------------------------------------------------------------------------------------------
  // Progress
  // ---------------------------------------------------------------------------------------------

  /** The thread re-reads a slot that is not yet what it waits for. */
  ghost predicate Spinning(st: State, t: nat)
    requires Live(st, t)
  {
    match st.threads[t]
    case PushWait(_, p) => At(st, p).sequence != p
    case DrainWait(d, c) => !d.helping && st.consumer == c && At(st, c).sequence != c + 1
    case DrainRecheck(_, c) => st.consumer == c && At(st, c).sequence != c + 1
    case _ => false
  }

  /** The thread whose step a spinning thread waits for: the slot's last consumer, or its producer. */
  ghost predicate WaitsFor(st: State, t: nat, u: nat)
    requires Counters(st) && t < |st.threads|
  {
    && Spinning(st, t)
    && match st.threads[t]
       case PushWait(_, p) => p >= |st.slots| && p - |st.slots| < st.consumer && u == st.takers[p - |st.slots|]
       case DrainWait(_, c) => c < st.producer && u == st.pushers[c]
       case DrainRecheck(_, c) => c < st.producer && u == st.pushers[c]
       case _ => false
  }

  /** A spinning drain ranks above a spinning push, which ranks above every thread that can move. */
  ghost function WaitRank(st: State, t: nat): nat
    requires Live(st, t)
  {
    if !Spinning(st, t) then 0 else if st.threads[t].PushWait? then 1 else 2
  }

  lemma PushWaitsFor(st: State, t: nat) returns (u: nat)
    requires Invariant(st) && t < |st.threads| && Spinning(st, t) && st.threads[t].PushWait?
    ensures u < |st.threads| && WaitsFor(st, t, u) && IsHolding(st.threads[u])
  {
    assert ThreadOk(st, t);
    assert SlotOk(st, st.threads[t].p);
    u := st.takers[st.threads[t].p - |st.slots|];
  }

  lemma DrainWaitsFor(st: State, t: nat) returns (u: nat)
    requires Invariant(st) && t < |st.threads| && Spinning(st, t) && !st.threads[t].PushWait?
    ensures u < |st.threads| && WaitsFor(st, t, u)
    ensures st.threads[u].PushWait? || st.threads[u].PushWrite? || st.threads[u].PushPublish?
  {
    assert ThreadOk(st, t);
    assert SlotOk(st, st.threads[t].c);
    u := st.pushers[st.threads[t].c];
  }

  /** Every spinning thread waits for a thread, of strictly lower rank and with an unfinished call. */
  lemma WaitsForIsAcyclic(st: State, t: nat) returns (u: nat)
    requires Reachable(st) && |st.slots| >= 2 && t < |st.threads| && Spinning(st, t)
    ensures Counters(st) && u < |st.threads| && !st.threads[u].Idle?
    ensures WaitsFor(st, t, u) && (forall v :: WaitsFor(st, t, v) ==> v == u)
    ensures WaitRank(st, u) < WaitRank(st, t)
  {
    ReachableOk(st);
    if st.threads[t].PushWait? { u := PushWaitsFor(st, t); } else { u := DrainWaitsFor(st, t); }
  }

  /** While any call is unfinished some thread has a step that is not a spin. */
  lemma SomeThreadCanMove(st: State, t: nat) returns (u: nat)
    requires Reachable(st) && |st.slots| >= 2 && t < |st.threads| && !st.threads[t].Idle?
    ensures u < |st.threads| && !st.threads[u].Idle? && !Spinning(st, u)
    decreases WaitRank(st, t)
  {
    if Spinning(st, t) {
      u := WaitsForIsAcyclic(st, t);
      u := SomeThreadCanMove(st, u);
    } else {
      u := t;
    }
  }

  /** An upper bound on the own steps a helping call still takes. */
  ghost function HelperSteps(pc: Pc): int
    requires !IsPush(pc)
  {
    match pc
    case Idle(_) => 0
    case DrainLoadConsumer(d) => 7 * (d.batch - d.count)
    case DrainLoadProducer(d, _) => 7 * (d.batch - d.count) - 1
    case DrainWait(d, _) => 7 * (d.batch - d.count) - 2
    case DrainRecheck(d, _) => 0
    case DrainCas(d, _) => 7 * (d.batch - d.count) - 3
    case DrainTake(d, _) => 7 * (d.batch - d.count) - 4
    case DrainCallback(d, _, _) => 7 * (d.batch - d.count) - 5
    case DrainRelease(d, _) => 7 * (d.batch - d.count) + 1
  }

  lemma HelperStepDecreases(st: State, t: nat, casMayWin: bool)
    requires Counters(st) && t < |st.threads| && ThreadOk(st, t)
    requires !IsPush(st.threads[t]) && !st.threads[t].Idle? && st.threads[t].drain.helping
    ensures !Spinning(st, t) && !IsPush(ThreadStep(st, t, casMayWin).threads[t])
    ensures 0 <= HelperSteps(ThreadStep(st, t, casMayWin).threads[t]) < HelperSteps(st.threads[t])
  {
  }

  /**
   `drain_helping` is wait-free: whatever the other threads do, each of its own steps brings it
   closer to returning, and it never spins.
   */
  lemma HelperIsWaitFree(st: State, t: nat, casMayWin: bool)
    requires Reachable(st) && |st.slots| >= 2 && t < |st.threads|
    requires !IsPush(st.threads[t]) && !st.threads[t].Idle? && st.threads[t].drain.helping
    ensures !Spinning(st, t) && !IsPush(ThreadStep(st, t, casMayWin).threads[t])
    ensures 0 <= HelperSteps(ThreadStep(st, t, casMayWin).threads[t]) < HelperSteps(st.threads[t])
  {
    ReachableOk(st);
    assert ThreadOk(st, t);
    HelperStepDecreases(st, t, casMayWin);
  }
}
