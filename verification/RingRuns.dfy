/** Particular runs of the hand-off protocol: where its guarantees end. */
module RingRuns {
  import opened RingCalls
  import opened RingContention
  import opened RingMachine
  import opened RingTheorems
  import opened Wrappers

  /** A run on which the ring holds fewer than `bound` items, these threads move, and no CAS fails spuriously. */
  datatype Limits = Limits(bound: nat, movers: set<nat>)

  const SHORT_RUN := Limits(9, {0, 1})
  const BELOW_TWO := Limits(2, {0, 1, 2})

  /** Some schedule within the limits leads from `a` to `b`. */
  ghost predicate Leads(a: State, b: State, limits: Limits) {
    |a.slots| > 0 && exists schedule :: Run(a, schedule) == b && Within(a, schedule, limits)
  }

  ghost predicate Within(st: State, schedule: seq<Move>, limits: Limits)
    requires |st.slots| > 0
    decreases |schedule|
  {
    && st.producer < st.consumer + limits.bound
    && (schedule == [] || (Allowed(schedule[0], limits) && Within(Step(st, schedule[0]), schedule[1..], limits)))
  }

  predicate Allowed(m: Move, limits: Limits) {
    m.thread in limits.movers && !m.action.SpuriousFailure?
  }

  lemma LeadsToItself(a: State, limits: Limits)
    requires |a.slots| > 0 && a.producer < a.consumer + limits.bound
    ensures Leads(a, a, limits)
  {
    assert Run(a, []) == a && Within(a, [], limits);
  }

  lemma {:induction false} RunThenStep(a: State, schedule: seq<Move>, m: Move, limits: Limits)
    requires |a.slots| > 0 && Within(a, schedule, limits) && Allowed(m, limits)
    requires Step(Run(a, schedule), m).producer < Step(Run(a, schedule), m).consumer + limits.bound
    ensures Run(a, schedule + [m]) == Step(Run(a, schedule), m) && Within(a, schedule + [m], limits)
    decreases |schedule|
  {
    if schedule == [] {
      assert schedule + [m] == [m] && [m][1..] == [];
      assert Run(a, [m]) == Run(Step(a, m), []);
      assert Within(Step(a, m), [], limits);
    } else {
      assert (schedule + [m])[1..] == schedule[1..] + [m];
      RunThenStep(Step(a, schedule[0]), schedule[1..], m, limits);
    }
  }

  lemma LeadsOn(a: State, b: State, m: Move, next: State, limits: Limits)
    requires Leads(a, b, limits) && Allowed(m, limits) && Step(b, m) == next
    requires next.producer < next.consumer + limits.bound
    ensures Leads(a, next, limits)
  {
    var schedule :| Run(a, schedule) == b && Within(a, schedule, limits);
    RunThenStep(a, schedule, m, limits);
  }

  /** The state an uninterrupted push leaves. */
  function Enqueued(st: State, t: nat, x: Item): State
    requires Live(st, t)
  {
    Store(st, st.producer, Slot(st.producer + 1, Some(x))).(
      producer := st.producer + 1, pushed := st.pushed + [x], pushers := st.pushers + [t],
      threads := st.threads[t := Idle(Pushed(st.producer, x))])
  }

  /** A push that has loaded room and won its claim. */
  lemma PushClaims(a: State, st: State, t: nat, x: Item, limits: Limits)
    requires Leads(a, st, limits) && Live(st, t) && st.threads[t].Idle? && t in limits.movers
    requires st.producer < st.consumer + |st.slots| && st.producer + 1 < st.consumer + limits.bound
    ensures Leads(a, Claim(st, t, x, st.producer), limits)
  {
    var s0 := Become(st, t, PushLoadConsumer(x));
    LeadsOn(a, st, Move(t, StartPush(x)), s0, limits);
    var s1 := Become(st, t, PushLoadProducer(x, st.consumer));
    LeadsOn(a, s0, Move(t, Go), s1, limits);
    var s2 := Become(st, t, PushCas(x, st.producer));
    LeadsOn(a, s1, Move(t, Go), s2, limits);
    LeadsOn(a, s2, Move(t, Go), Claim(st, t, x, st.producer), limits);
  }

  /** And whose slot is already released. */
  lemma PushIsReady(a: State, st: State, t: nat, x: Item, limits: Limits)
    requires Leads(a, st, limits) && Live(st, t) && st.threads[t].Idle? && t in limits.movers
    requires st.producer < st.consumer + |st.slots| && st.producer + 1 < st.consumer + limits.bound
    requires At(st, st.producer).sequence == st.producer
    ensures Leads(a, Become(Claim(st, t, x, st.producer), t, PushWrite(x, st.producer)), limits)
  {
    PushClaims(a, st, t, x, limits);
    var s3 := Claim(st, t, x, st.producer);
    LeadsOn(a, s3, Move(t, Go), Become(s3, t, PushWrite(x, st.producer)), limits);
  }

  /** An uninterrupted push into a ring with room and a released slot enqueues. */
  lemma PushAlone(a: State, st: State, t: nat, x: Item, limits: Limits)
    requires Leads(a, st, limits) && Live(st, t) && st.threads[t].Idle? && t in limits.movers
    requires st.producer < st.consumer + |st.slots| && st.producer + 1 < st.consumer + limits.bound
    requires At(st, st.producer).sequence == st.producer
    ensures Leads(a, Enqueued(st, t, x), limits)
  {
    PushIsReady(a, st, t, x, limits);
    var s4 := Become(Claim(st, t, x, st.producer), t, PushWrite(x, st.producer));
    var s5 := Write(s4, t, x, st.producer);
    LeadsOn(a, s4, Move(t, Go), s5, limits);
    LeadsOn(a, s5, Move(t, Go), Enqueued(st, t, x), limits);
  }

  /** The state after an uninterrupted `drain` has won its first sequence number. */
  function FirstWin(st: State, t: nat, batch: nat): State
    requires Live(st, t)
  {
    st.(consumer := st.consumer + 1, takers := st.takers + [t],
        threads := st.threads[t := DrainTake(Drain(false, batch, 0, 1), st.consumer)])
  }

  lemma DrainAloneLoads(a: State, st: State, t: nat, batch: nat, limits: Limits)
    requires Leads(a, st, limits) && Live(st, t) && st.threads[t].Idle? && t in limits.movers && batch > 0
    requires st.consumer < st.producer < st.consumer + limits.bound
    ensures Leads(a, Become(st, t, DrainWait(Drain(false, batch, 0, 0), st.consumer)), limits)
  {
    var d, c := Drain(false, batch, 0, 0), st.consumer;
    var s0 := Become(st, t, DrainLoadConsumer(d));
    LeadsOn(a, st, Move(t, StartDrain(false, batch)), s0, limits);
    var s1 := Become(st, t, DrainLoadProducer(d, c));
    LeadsOn(a, s0, Move(t, Go), s1, limits);
    LeadsOn(a, s1, Move(t, Go), Become(st, t, DrainWait(d, c)), limits);
  }

  lemma DrainAloneFinds(a: State, st: State, t: nat, batch: nat, limits: Limits)
    requires Leads(a, st, limits) && Live(st, t) && st.threads[t].Idle? && t in limits.movers && batch > 0
    requires st.consumer < st.producer < st.consumer + limits.bound && At(st, st.consumer).sequence == st.consumer + 1
    ensures Leads(a, Become(st, t, DrainCas(Drain(false, batch, 0, 0), st.consumer)), limits)
  {
    var d, c := Drain(false, batch, 0, 0), st.consumer;
    DrainAloneLoads(a, st, t, batch, limits);
    LeadsOn(a, Become(st, t, DrainWait(d, c)), Move(t, Go), Become(st, t, DrainCas(d, c)), limits);
  }

  lemma DrainAloneWins(a: State, st: State, t: nat, batch: nat, limits: Limits)
    requires Leads(a, st, limits) && Live(st, t) && st.threads[t].Idle? && t in limits.movers && batch > 0
    requires st.consumer < st.producer < st.consumer + limits.bound && At(st, st.consumer).sequence == st.consumer + 1
    ensures Leads(a, FirstWin(st, t, batch), limits)
  {
    DrainAloneFinds(a, st, t, batch, limits);
    var looked := Become(st, t, DrainCas(Drain(false, batch, 0, 0), st.consumer));
    LeadsOn(a, looked, Move(t, Go), FirstWin(st, t, batch), limits);
  }

  lemma LeadsReachable(capacity: nat, threads: nat, st: State, limits: Limits)
    requires capacity > 0 && Leads(Init(capacity, threads), st, limits)
    ensures Reachable(st)
  {
    var schedule :| Run(Init(capacity, threads), schedule) == st;
    assert |st.slots| == capacity;
  }

  /** One slot, one item pushed and won but not taken, and a second producer allowed to write. */
  lemma OneSlotOverlap(x: Item, y: Item) returns (st: State)
    ensures Leads(Init(1, 2), st, SHORT_RUN) && Reachable(st) && st.pushed == [x, y] && st.producer == st.consumer + 1
    ensures st.slots == [Slot(1, Some(x))]
    ensures st.threads == [PushWrite(y, 1), DrainTake(Drain(false, 1, 0, 1), 0)]
  {
    var s0 := Init(1, 2);
    LeadsToItself(s0, SHORT_RUN);
    PushAlone(s0, s0, 0, x, SHORT_RUN);
    var s1 := Enqueued(s0, 0, x);
    DrainAloneWins(s0, s1, 1, 1, SHORT_RUN);
    var s2 := FirstWin(s1, 1, 1);
    PushIsReady(s0, s2, 0, y, SHORT_RUN);
    st := Become(Claim(s2, 0, y, 1), 0, PushWrite(y, 1));
    LeadsReachable(1, 2, st, SHORT_RUN);
  }

  /** The second producer writes, then the consumer takes. */
  lemma OneSlotOverwrite(st: State, x: Item, y: Item) returns (later: State)
    requires Leads(Init(1, 2), st, SHORT_RUN) && st.pushed == [x, y] && st.producer == st.consumer + 1
    requires st.slots == [Slot(1, Some(x))] && st.threads == [PushWrite(y, 1), DrainTake(Drain(false, 1, 0, 1), 0)]
    ensures Reachable(later) && later.pushed == [x, y]
    ensures later.threads == [PushPublish(y, 1), DrainCallback(Drain(false, 1, 0, 1), 0, Some(y))]
  {
    var s0 := Init(1, 2);
    var written := Write(st, 0, y, 1);
    LeadsOn(s0, st, Move(0, Go), written, SHORT_RUN);
    later := Take(written, 1, Drain(false, 1, 0, 1), 0);
    LeadsOn(s0, written, Move(1, Go), later, SHORT_RUN);
    LeadsReachable(1, 2, later, SHORT_RUN);
  }

  /**
   With a single slot "published" and "released for the next producer" are the same value: the
   second producer writes over the item the consumer has won and not yet taken, and the consumer
   delivers the second item under the first item's sequence number.
   */
  lemma OneSlotIsNotExclusive(x: Item, y: Item) returns (st: State, later: State)
    ensures Reachable(st) && |st.slots| == 1 && !Exclusive(st)
    ensures Reachable(later) && later.pushed == [x, y]
    ensures later.threads == [PushPublish(y, 1), DrainCallback(Drain(false, 1, 0, 1), 0, Some(y))]
  {
    st := OneSlotOverlap(x, y);
    assert InAccessWindow(st.threads[0]) && InAccessWindow(st.threads[1]);
    later := OneSlotOverwrite(st, x, y);
  }

  /** `RingBuffer::new` accepts every power of two; the protocol is exclusive exactly from two slots on. */
  lemma ExclusiveExactlyFromTwoSlots(x: Item, capacity: nat)
    requires capacity > 0
    ensures (forall st :: Reachable(st) && |st.slots| == capacity ==> Exclusive(st)) <==> capacity >= 2
  {
    if capacity == 1 {
      var st, _ := OneSlotIsNotExclusive(x, x);
    } else {
      forall st | Reachable(st) && |st.slots| == capacity ensures Exclusive(st) {
        SlotExclusion(st);
      }
    }
  }

  /** One item is in the ring when thread 0 starts its push. */
  lemma OneItemIn(x: Item, y: Item) returns (st: State)
    ensures st == Become(Enqueued(Init(2, 3), 1, y), 0, PushLoadConsumer(x)) && Reachable(st)
  {
    var s0 := Init(2, 3);
    LeadsToItself(s0, BELOW_TWO);
    PushAlone(s0, s0, 1, y, BELOW_TWO);
    var s1 := Enqueued(s0, 1, y);
    st := Become(s1, 0, PushLoadConsumer(x));
    LeadsOn(s0, s1, Move(0, StartPush(x)), st, BELOW_TWO);
    LeadsReachable(2, 3, st, BELOW_TWO);
  }

  /**
   `Full` can be stale: a push of thread 0 answers it although the two-slot ring never held more
   than one item from its first load to its last.
   */
  lemma FullCanBeStale(x: Item, y: Item, z: Item) returns (before: State, after: State)
    ensures Reachable(before) && |before.slots| == 2 && |before.threads| == |after.threads| == 3
    ensures Leads(before, after, BELOW_TWO)
    ensures before.threads[0] == PushLoadConsumer(x) && after.threads[0] == Idle(Full(x))
  {
    var s1 := Enqueued(Init(2, 3), 1, y);
    before := OneItemIn(x, y);
    LeadsToItself(before, BELOW_TWO);
    var s2 := Become(s1, 0, PushLoadProducer(x, 0));
    LeadsOn(before, before, Move(0, Go), s2, BELOW_TWO);
    DrainAloneWins(before, s2, 2, 1, BELOW_TWO);
    var s3 := FirstWin(s2, 2, 1);
    PushAlone(before, s3, 1, z, BELOW_TWO);
    var s4 := Enqueued(s3, 1, z);
    after := Become(s4, 0, Idle(Full(x)));
    LeadsOn(before, s4, Move(0, Go), after, BELOW_TWO);
  }

  /** A reachable push that waits for its slot, and makes no progress however many steps it takes by itself. */
  lemma PushCanWait(x: Item, y: Item, z: Item) returns (st: State)
    ensures Reachable(st) && |st.slots| == 2 && |st.threads| == 2 && st.threads[0] == PushWait(z, 2) && Spinning(st, 0)
    ensures forall schedule :: OnlyStepsOf(0, schedule) ==> Run(st, schedule) == st
  {
    var s0 := Init(2, 2);
    LeadsToItself(s0, SHORT_RUN);
    PushAlone(s0, s0, 0, x, SHORT_RUN);
    var s1 := Enqueued(s0, 0, x);
    PushAlone(s0, s1, 0, y, SHORT_RUN);
    var s2 := Enqueued(s1, 0, y);
    DrainAloneWins(s0, s2, 1, 1, SHORT_RUN);
    var s3 := FirstWin(s2, 1, 1);
    PushClaims(s0, s3, 0, z, SHORT_RUN);
    st := Claim(s3, 0, z, 2);
    LeadsReachable(2, 2, st, SHORT_RUN);
    forall schedule | OnlyStepsOf(0, schedule) ensures Run(st, schedule) == st {
      WaitingPushIsStuck(st, 0, schedule);
    }
  }

  // ---------------------------------------------------------------------------------------------
  // A push that always loses
  // ---------------------------------------------------------------------------------------------

  /** Some schedule leads from `a` to `b` on which thread `t` loses `n` producer CASes, none of them spuriously. */
  ghost predicate LosesOnTheWay(a: State, b: State, t: nat, n: nat) {
    |a.slots| > 0 && exists schedule :: Run(a, schedule) == b && LosesAlong(a, t, schedule, n)
  }

  predicate LosesAlong(a: State, t: nat, schedule: seq<Move>, n: nat)
    requires |a.slots| > 0
  {
    Losses(a, t, Producers, schedule) == n && SpuriousFailures(a, t, Producers, schedule) == 0
  }

  lemma {:induction false} LossesAppend(st: State, t: nat, a: seq<Move>, b: seq<Move>)
    requires |st.slots| > 0
    ensures Run(st, a + b) == Run(Run(st, a), b)
    ensures Losses(st, t, Producers, a + b) == Losses(st, t, Producers, a) + Losses(Run(st, a), t, Producers, b)
    ensures SpuriousFailures(st, t, Producers, a + b)
         == SpuriousFailures(st, t, Producers, a) + SpuriousFailures(Run(st, a), t, Producers, b)
    decreases |a|
  {
    if a == [] {
      assert a + b == b;
    } else {
      assert (a + b)[0] == a[0] && (a + b)[1..] == a[1..] + b;
      LossesAppend(Step(st, a[0]), t, a[1..], b);
    }
  }

  lemma {:induction false} OthersLoseNothing(st: State, t: nat, schedule: seq<Move>, limits: Limits)
    requires |st.slots| > 0 && Within(st, schedule, limits) && t !in limits.movers
    ensures Losses(st, t, Producers, schedule) == SpuriousFailures(st, t, Producers, schedule) == 0
    decreases |schedule|
  {
    if schedule != [] { OthersLoseNothing(Step(st, schedule[0]), t, schedule[1..], limits); }
  }

  lemma ThenOthers(a: State, b: State, c: State, t: nat, n: nat, limits: Limits)
    requires LosesOnTheWay(a, b, t, n) && Leads(b, c, limits) && t !in limits.movers
    ensures LosesOnTheWay(a, c, t, n)
  {
    var first :| Run(a, first) == b && LosesAlong(a, t, first, n);
    var second :| Run(b, second) == c && Within(b, second, limits);
    OthersLoseNothing(b, t, second, limits);
    LossesAppend(a, t, first, second);
  }

  lemma ThenStep(a: State, b: State, t: nat, n: nat)
    requires LosesOnTheWay(a, b, t, n) && |b.slots| > 0
    ensures LosesOnTheWay(a, Step(b, Move(t, Go)), t, n + if Loses(b, t, Producers, Move(t, Go)) then 1 else 0)
  {
    var first :| Run(a, first) == b && LosesAlong(a, t, first, n);
    var m := Move(t, Go);
    assert [m][1..] == [] && Run(b, [m]) == Run(Step(b, m), []);
    assert Losses(b, t, Producers, [m]) == if Loses(b, t, Producers, m) then 1 else 0;
    assert SpuriousFailures(b, t, Producers, [m]) == 0;
    LossesAppend(a, t, first, [m]);
  }

  lemma DrainAloneDelivers(a: State, st: State, t: nat, limits: Limits) returns (end: State)
    requires Leads(a, st, limits) && Live(st, t) && t in limits.movers && st.producer < st.consumer + limits.bound
    requires st.threads[t].DrainTake? && st.threads[t].drain == Drain(false, 1, 0, 1)
    requires At(st, st.threads[t].c).data.Some?
    ensures Leads(a, end, limits) && end.producer == st.producer && end.consumer == st.consumer
    ensures |end.slots| == |st.slots|
    ensures end.threads == st.threads[t := DrainRelease(Drain(false, 1, 1, 1), st.threads[t].c)]
  {
    var d, c, found := st.threads[t].drain, st.threads[t].c, At(st, st.threads[t].c).data;
    var taken := Take(st, t, d, c);
    LeadsOn(a, st, Move(t, Go), taken, limits);
    end := Deliver(taken, t, d, c, found);
    LeadsOn(a, taken, Move(t, Go), end, limits);
  }

  /** A drain of one item goes on from its win to its return. */
  lemma DrainAloneReturns(a: State, st: State, t: nat, limits: Limits) returns (end: State)
    requires Leads(a, st, limits) && Live(st, t) && t in limits.movers && st.producer < st.consumer + limits.bound
    requires st.threads[t].DrainTake? && st.threads[t].drain == Drain(false, 1, 0, 1)
    requires At(st, st.threads[t].c).data.Some?
    ensures Leads(a, end, limits) && end.producer == st.producer && end.consumer == st.consumer
    ensures |end.threads| == |st.threads| && end.threads == st.threads[t := Idle(Drained(Drain(false, 1, 1, 1)))]
  {
    var delivered := DrainAloneDelivers(a, st, t, limits);
    end := Release(delivered, t, Drain(false, 1, 1, 1), st.threads[t].c);
    LeadsOn(a, delivered, Move(t, Go), end, limits);
  }

  /** Thread 0 is at the start of its claiming loop, thread 1 has no call, and the ring is empty. */
  ghost predicate Contended(st: State, x: Item) {
    && Reachable(st) && |st.slots| == |st.threads| == 2 && st.producer == st.consumer
    && st.threads[0] == PushLoadConsumer(x) && st.threads[1].Idle?
  }

  /** Thread 1 pushes an item and drains it. */
  lemma OtherPushesAndDrains(st: State, y: Item) returns (end: State)
    requires |st.slots| == |st.threads| == 2 && st.producer == st.consumer && st.threads[1].Idle?
    requires At(st, st.producer).sequence == st.producer
    ensures Leads(st, end, Limits(2, {1})) && end.producer == end.consumer == st.producer + 1
    ensures |end.threads| == 2 && end.threads[0] == st.threads[0] && end.threads[1].Idle?
  {
    var limits := Limits(2, {1});
    LeadsToItself(st, limits);
    PushAlone(st, st, 1, y, limits);
    var filled := Enqueued(st, 1, y);
    DrainAloneWins(st, filled, 1, 1, limits);
    end := DrainAloneReturns(st, FirstWin(filled, 1, 1), 1, limits);
  }

  lemma ContendedIsReady(st: State, x: Item)
    requires Contended(st, x)
    ensures At(st, st.producer).sequence == st.producer
  {
    ReachableOk(st);
    assert SlotOk(st, st.producer);
  }

  lemma ContendedLoads(a: State, st: State, x: Item, n: nat) returns (loaded: State)
    requires Contended(st, x) && LosesOnTheWay(a, st, 0, n)
    ensures loaded == Become(st, 0, PushCas(x, st.producer)) && LosesOnTheWay(a, loaded, 0, n)
  {
    var between := Become(st, 0, PushLoadProducer(x, st.consumer));
    ThenStep(a, st, 0, n);
    assert Step(st, Move(0, Go)) == between;
    loaded := Become(st, 0, PushCas(x, st.producer));
    ThenStep(a, between, 0, n);
    assert Step(between, Move(0, Go)) == loaded;
  }

  lemma LosesReachable(a: State, b: State, t: nat, n: nat)
    requires Reachable(a) && LosesOnTheWay(a, b, t, n)
    ensures Reachable(b)
  {
    var schedule :| Run(a, schedule) == b && LosesAlong(a, t, schedule, n);
    RunReachable(a, schedule);
  }

  /** The CAS of thread 0 with a value the counter has moved past. */
  lemma LosesOnce(a: State, st: State, x: Item, n: nat) returns (end: State)
    requires LosesOnTheWay(a, st, 0, n) && Live(st, 0) && st.threads[0].PushCas?
    requires st.threads[0].item == x && st.threads[0].p != st.producer
    ensures end == Become(st, 0, PushLoadConsumer(x)) && LosesOnTheWay(a, end, 0, n + 1)
  {
    ThenStep(a, st, 0, n);
    end := Step(st, Move(0, Go));
  }

  lemma ContendedRound(a: State, st: State, x: Item, y: Item, n: nat) returns (end: State)
    requires Reachable(a) && Contended(st, x) && LosesOnTheWay(a, st, 0, n)
    ensures Contended(end, x) && LosesOnTheWay(a, end, 0, n + 1) && end.producer == st.producer + 1
  {
    ContendedIsReady(st, x);
    var loaded := ContendedLoads(a, st, x, n);
    var advanced := OtherPushesAndDrains(loaded, y);
    ThenOthers(a, loaded, advanced, 0, n, Limits(2, {1}));
    end := LosesOnce(a, advanced, x, n);
    LosesReachable(a, end, 0, n + 1);
  }

  /**
   Contention alone keeps a push in its claiming loop for any number of rounds: in each the other thread pushes an
   item and drains it, so the ring is empty again when the push starts over.
   */
  lemma {:induction false} ContentionCanLast(x: Item, y: Item, n: nat) returns (start: State, end: State)
    ensures Contended(start, x) && Contended(end, x) && LosesOnTheWay(start, end, 0, n)
    ensures end.producer == start.producer + n
  {
    if n == 0 {
      start := Become(Init(2, 2), 0, PushLoadConsumer(x));
      LeadsToItself(Init(2, 2), SHORT_RUN);
      LeadsOn(Init(2, 2), Init(2, 2), Move(0, StartPush(x)), start, SHORT_RUN);
      LeadsReachable(2, 2, start, SHORT_RUN);
      end := start;
      assert Run(start, []) == start && LosesAlong(start, 0, [], 0);
    } else {
      var middle;
      start, middle := ContentionCanLast(x, y, n - 1);
      end := ContendedRound(start, middle, x, y, n - 1);
    }
  }

  /** Loading the producer counter first would not do: the consumer can pass the value that was read. */
  lemma ProducerFirstCanUnderflow(x: Item) returns (early: State, late: State)
    ensures Reachable(early) && |early.slots| == 2 && Leads(early, late, BELOW_TWO) && late.consumer > early.producer
  {
    early := Init(2, 1);
    LeadsToItself(early, BELOW_TWO);
    LeadsReachable(2, 1, early, BELOW_TWO);
    PushAlone(early, early, 0, x, BELOW_TWO);
    DrainAloneWins(early, Enqueued(early, 0, x), 0, 1, BELOW_TWO);
    late := FirstWin(Enqueued(early, 0, x), 0, 1);
  }
}
