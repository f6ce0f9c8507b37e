/** What happens to every record on the log path, and when the ring has room for it. */
module LogTheorems {
  import opened LogPath
  import opened LogSteps

  /**
   Record conservation: over every run of logging, helping and consuming threads, each pool index is
   in exactly one of free list, ring, audit queue, a producer's hands and a consumer's hands.
   */
  lemma RecordConservation(config: Config, threads: nat, schedule: seq<Move>, i: nat)
    ensures var st := Run(Init(config, threads), schedule);
            multiset(st.free)[i] + multiset(st.ring)[i] + multiset(st.audit)[i]
            + Producers(st.threads, i) + Consumers(st.threads, i)
            == if i < config.poolCapacity then 1 else 0
  {
    InitOk(config, threads);
    RunKeeps(Init(config, threads), schedule);
    assert Places(Run(Init(config, threads), schedule), i) == if i < config.poolCapacity then 1 else 0;
  }

  /** Each `dologger_log` exit has transferred its record once, freed it once, or never had one. */
  lemma ExitsSettleTheRecord(config: Config, threads: nat, schedule: seq<Move>, t: nat)
    requires t < threads
    ensures var st := Run(Init(config, threads), schedule);
            st.threads[t].Idle? ==>
              st.ledgers[t] == match st.threads[t].last
                               case Success => Ledger(1, 1, 0)
                               case NotCalled => Ledger(0, 0, 0)
                               case InvalidArgument => Ledger(0, 0, 0)
                               case OutOfMemory => Ledger(0, 0, 0)
                               case Drained => Ledger(0, 0, 0)
                               case _ => Ledger(1, 0, 1)
  {
    InitOk(config, threads);
    RunKeeps(Init(config, threads), schedule);
  }

  /** Nothing accepted is lost: it is queued, in a consumer's hands, or freed by a consumer. */
  lemma AcceptedIsAccountedFor(config: Config, threads: nat, schedule: seq<Move>)
    ensures var st := Run(Init(config, threads), schedule);
            st.stats.accepted == |st.ring| + |st.audit| + InFlight(st.threads) + st.consumed
  {
    InitOk(config, threads);
    RunKeeps(Init(config, threads), schedule);
  }

  // ---------------------------------------------------------------------------------------------
  // Sizing
  // ---------------------------------------------------------------------------------------------

  /** No push met a full ring, so no call is helping, and none gave its record up for want of room. */
  ghost predicate NeverFull(pc: Pc) {
    match pc
    case Idle(exit) => exit != BufferFull
    case Returning(_, exit) => exit != BufferFull
    case CheckingFill(_) => false
    case Helping(_, _, _) => false
    case HelperFreeing(_, _, _, _) => false
    case Retrying(_) => false
    case _ => true
  }

  ghost predicate Roomy(st: State) {
    st.stats.dropped == 0 && forall t :: 0 <= t < |st.threads| ==> NeverFull(st.threads[t])
  }

  lemma {:induction false} OwnerCounts(threads: seq<Pc>, t: nat)
    requires t < |threads|
    ensures IsSome(Own(threads[t])) <= Owned(threads)
  {
    if t > 0 { OwnerCounts(threads[1..], t - 1); }
  }

  /** A producer that holds a record sees room in a ring no smaller than the pool. */
  lemma OwnerSeesRoom(st: State, t: nat)
    requires Invariant(st) && t < |st.threads| && Own(st.threads[t]).Some?
    requires st.config.poolCapacity <= st.config.ringCapacity
    ensures |st.ring| < st.config.ringCapacity
  {
    OwnerCounts(st.threads, t);
  }

  /** The step of thread `t` drops no record and sees no full ring. */
  ghost predicate StaysRoomy(st: State, end: State, t: nat)
    requires t < |st.threads| == |end.threads|
  {
    && end.stats.dropped == st.stats.dropped && NeverFull(end.threads[t])
    && end.threads == st.threads[t := end.threads[t]]
  }

  lemma RoomyProducerStep(st: State, t: nat, action: Action)
    requires Live(st, t) && NeverFull(st.threads[t]) && action != StaleFull
    requires st.threads[t].Allocating? || st.threads[t].Auditing? || st.threads[t].Pushing? || st.threads[t].Returning?
    requires Own(st.threads[t]).Some? ==> |st.ring| < st.config.ringCapacity
    ensures StaysRoomy(st, ThreadStep(st, t, action), t)
  {
  }

  lemma RoomyConsumerStep(st: State, t: nat, action: Action)
    requires Live(st, t) && NeverFull(st.threads[t])
    requires !st.threads[t].Allocating? && !st.threads[t].Auditing? && !st.threads[t].Pushing?
    requires !st.threads[t].Returning?
    ensures StaysRoomy(st, ThreadStep(st, t, action), t)
  {
  }

  /** With room in the ring for a producer's record, no step drops a record or sees a full ring. */
  lemma RoomyThreadStep(st: State, t: nat, action: Action)
    requires Live(st, t) && NeverFull(st.threads[t]) && action != StaleFull
    requires Own(st.threads[t]).Some? ==> |st.ring| < st.config.ringCapacity
    ensures StaysRoomy(st, ThreadStep(st, t, action), t)
  {
    var pc := st.threads[t];
    if pc.Allocating? || pc.Auditing? || pc.Pushing? || pc.Returning? {
      RoomyProducerStep(st, t, action);
    } else {
      RoomyConsumerStep(st, t, action);
    }
  }

  lemma RoomyStart(st: State, m: Move)
    requires Live(st, m.thread) && NeverFull(st.threads[m.thread])
    requires !m.action.Go? && !m.action.StaleFull? && !m.action.StopShort?
    ensures StaysRoomy(st, Step(st, m), m.thread)
  {
  }

  lemma RoomyStep(st: State, m: Move)
    requires Invariant(st) && Roomy(st) && st.config.poolCapacity <= st.config.ringCapacity && m.action != StaleFull
    ensures Roomy(Step(st, m))
  {
    if m.thread < |st.threads| {
      assert NeverFull(st.threads[m.thread]);
      if m.action.Go? || m.action.StopShort? {
        if Own(st.threads[m.thread]).Some? { OwnerSeesRoom(st, m.thread); }
        RoomyThreadStep(st, m.thread, m.action);
      } else {
        RoomyStart(st, m);
      }
    }
  }

  /** No push answers "full" from a stale counter. */
  ghost predicate Exact(schedule: seq<Move>) {
    forall k :: 0 <= k < |schedule| ==> schedule[k].action != StaleFull
  }

  lemma {:induction false} RoomyRun(st: State, schedule: seq<Move>)
    requires Invariant(st) && Roomy(st) && st.config.poolCapacity <= st.config.ringCapacity && Exact(schedule)
    ensures Roomy(Run(st, schedule))
    decreases |schedule|
  {
    if schedule != [] {
      StepKeeps(st, schedule[0]);
      RoomyStep(st, schedule[0]);
      RoomyRun(Step(st, schedule[0]), schedule[1..]);
    }
  }

  const PLAIN: Params := Params(2, Utf8, Null)

  /** No helping drain stops short at an unpublished slot or a lost CAS. */
  ghost predicate Uninterrupted(schedule: seq<Move>) {
    forall k :: 0 <= k < |schedule| ==> schedule[k].action != StopShort
  }

  /** A run with neither a stale "full" nor an interrupted helper leads from `a` to `b`. */
  ghost predicate Leads(a: State, b: State) {
    |a.threads| == |a.ledgers| && exists schedule :: Run(a, schedule) == b && Exact(schedule) && Uninterrupted(schedule)
  }

  lemma {:induction false} RunThenStep(a: State, schedule: seq<Move>, m: Move)
    requires |a.threads| == |a.ledgers|
    ensures Run(a, schedule + [m]) == Step(Run(a, schedule), m)
    decreases |schedule|
  {
    if schedule == [] {
      assert schedule + [m] == [m] && [m][1..] == [];
      assert Run(a, [m]) == Run(Step(a, m), []);
    } else {
      assert (schedule + [m])[1..] == schedule[1..] + [m];
      RunThenStep(Step(a, schedule[0]), schedule[1..], m);
    }
  }

  lemma LeadsOn(a: State, b: State, m: Move)
    requires Leads(a, b) && m.action != StaleFull && m.action != StopShort
    ensures Leads(a, Step(b, m))
  {
    var schedule :| Run(a, schedule) == b && Exact(schedule) && Uninterrupted(schedule);
    RunThenStep(a, schedule, m);
  }

  /** Two idle threads. */
  ghost predicate BothIdle(st: State) {
    |st.threads| == |st.ledgers| == 2 && st.threads[0].Idle? && st.threads[1].Idle?
  }

  /** Thread 0 starts an ordinary log call and gets a record. */
  lemma Allocates(a: State, st: State) returns (end: State)
    requires Leads(a, st) && BothIdle(st) && st.free != []
    ensures Leads(a, end) && end.config == st.config && end.ring == st.ring && end.stats == st.stats
    ensures end.free == st.free[1..]
    ensures |end.threads| == |end.ledgers| == 2 && end.threads[0] == Pushing(st.free[0])
    ensures end.threads[1] == st.threads[1]
  {
    var s0 := Start(st, 0, Allocating(PLAIN));
    LeadsOn(a, st, Move(0, Log(PLAIN)));
    assert Step(st, Move(0, Log(PLAIN))) == s0;
    LeadsOn(a, s0, Move(0, Go));
    end := Allocate(s0, 0, PLAIN);
    assert Step(s0, Move(0, Go)) == end;
  }

  /** `k` ordinary log calls in a row, with nobody consuming, put `k` records on the ring. */
  lemma {:induction false} FillRing(config: Config, k: nat) returns (st: State)
    requires k <= config.ringCapacity && k <= config.poolCapacity
    ensures Leads(Init(config, 2), st) && BothIdle(st) && st.config == config && st.stats.dropped == 0
    ensures |st.ring| == k && |st.free| == config.poolCapacity - k
  {
    if k == 0 {
      st := Init(config, 2);
      assert Run(st, []) == st;
    } else {
      var before := FillRing(config, k - 1);
      var s1 := Allocates(Init(config, 2), before);
      LeadsOn(Init(config, 2), s1, Move(0, Go));
      st := Step(s1, Move(0, Go));
    }
  }

  lemma ConsumesOne(st: State, left: nat)
    requires Live(st, 1) && |st.threads| == 2 && st.threads[1] == Draining(left) && left > 0 && st.ring != []
    ensures var end := Step(Step(st, Move(1, Go)), Move(1, Go));
            && end.config == st.config && end.ring == st.ring[1..] && end.stats == st.stats
            && |end.threads| == |end.ledgers| == 2 && end.threads[0] == st.threads[0]
            && end.threads[1] == Draining(left - 1)
  {
  }

  /** A consumer with a batch for the whole ring empties it. */
  lemma {:induction false} ConsumesAll(a: State, st: State, left: nat) returns (end: State)
    requires Leads(a, st) && |st.threads| == |st.ledgers| == 2 && st.threads[1] == Draining(left) && |st.ring| <= left
    ensures Leads(a, end) && end.config == st.config && end.ring == [] && end.stats == st.stats
    ensures |end.threads| == |end.ledgers| == 2 && end.threads[0] == st.threads[0] && end.threads[1].Idle?
    decreases |st.ring|
  {
    LeadsOn(a, st, Move(1, Go));
    var s1 := Step(st, Move(1, Go));
    if left == 0 || st.ring == [] {
      end := s1;
    } else {
      LeadsOn(a, s1, Move(1, Go));
      ConsumesOne(st, left);
      end := ConsumesAll(a, Step(s1, Move(1, Go)), left - 1);
    }
  }

  /** Thread 0 gives its record up: it frees it and counts a drop. */
  lemma GivesUp(a: State, st: State, i: nat) returns (end: State)
    requires Leads(a, st) && |st.threads| == |st.ledgers| == 2 && st.threads[0] == Returning(i, BufferFull)
    ensures Leads(a, end) && end.stats.dropped == st.stats.dropped + 1
  {
    LeadsOn(a, st, Move(0, Go));
    end := Step(st, Move(0, Go));
  }

  lemma EmptyRingDeclines(a: State, st: State, i: nat) returns (end: State)
    requires Leads(a, st) && |st.threads| == |st.ledgers| == 2 && st.threads[0] == CheckingFill(i) && st.ring == []
    ensures Leads(a, end) && end.stats.dropped == st.stats.dropped + 1
  {
    LeadsOn(a, st, Move(0, Go));
    var looked := Step(st, Move(0, Go));
    if st.config.ringCapacity == 0 {
      LeadsOn(a, looked, Move(0, Go));
      looked := Step(looked, Move(0, Go));
    }
    end := GivesUp(a, looked, i);
  }

  /**
   With helping, a consumer that empties the ring between the failed push and the fill check makes `try_help`
   decline, and the push is not tried again; a ring of no capacity leaves nothing to help with.
   */
  lemma HelperDeclines(a: State, st: State, i: nat) returns (end: State)
    requires Leads(a, st) && |st.threads| == |st.ledgers| == 2 && st.threads[0] == CheckingFill(i)
    requires st.threads[1].Idle?
    ensures Leads(a, end) && end.stats.dropped == st.stats.dropped + 1
  {
    LeadsOn(a, st, Move(1, Consume(|st.ring|)));
    var s1 := ConsumesAll(a, Step(st, Move(1, Consume(|st.ring|))), |st.ring|);
    end := EmptyRingDeclines(a, s1, i);
  }

  /** A pool larger than the ring lets a call find the ring full and drop its record, with helping and without. */
  lemma SmallRingDrops(config: Config) returns (schedule: seq<Move>)
    requires config.ringCapacity < config.poolCapacity
    ensures Exact(schedule) && Uninterrupted(schedule) && Run(Init(config, 2), schedule).stats.dropped > 0
  {
    var init := Init(config, 2);
    var full := FillRing(config, config.ringCapacity);
    var s1 := Allocates(init, full);
    LeadsOn(init, s1, Move(0, Go));
    var s2 := Step(s1, Move(0, Go));
    var end := s2;
    if config.helping {
      end := HelperDeclines(init, s2, full.free[0]);
    } else {
      end := GivesUp(init, s2, full.free[0]);
    }
    schedule :| Run(init, schedule) == end && Exact(schedule) && Uninterrupted(schedule);
  }

  /**
   Sizing: with exact pushes no run of any number of threads, helping or not, ever drops a record for want of room
   if and only if the ring is at least as large as the pool. `Engine::init` gives both the same capacity, so an
   exhausted pool always precedes a full ring.
   */
  lemma NoDropsExactlyWhenRingHoldsPool(config: Config)
    ensures (forall threads, schedule :: Exact(schedule) ==> Run(Init(config, threads), schedule).stats.dropped == 0)
            <==> config.poolCapacity <= config.ringCapacity
  {
    if config.poolCapacity <= config.ringCapacity {
      forall threads, schedule | Exact(schedule) ensures Run(Init(config, threads), schedule).stats.dropped == 0 {
        EqualSizesNeverFull(config, threads, schedule);
      }
    } else {
      var schedule := SmallRingDrops(config);
      assert Run(Init(config, 2), schedule).stats.dropped > 0;
    }
  }

  /**
   With the ring at least as large as the pool, no exact push fails, no call helps, and none reports a full buffer.
   */
  lemma EqualSizesNeverFull(config: Config, threads: nat, schedule: seq<Move>)
    requires config.poolCapacity <= config.ringCapacity && Exact(schedule)
    ensures Roomy(Run(Init(config, threads), schedule))
  {
    InitOk(config, threads);
    RoomyRun(Init(config, threads), schedule);
  }
}
