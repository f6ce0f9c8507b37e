/** Which queue each record goes to, how each call can end, and what helping may do, over every run of the log path. */
module LogRouting {
  import opened LogPath
  import opened LogSteps
  import opened LogTrace
  import opened Wrappers

  /** All a step of thread `t` must do that changes no level. */
  ghost predicate StepOk(st: State, trace: Trace, t: nat, end: State, after: Trace)
    requires t < |st.threads| == |end.threads| == |trace.progress| == |after.progress|
  {
    && end.config == st.config && after.levels == trace.levels
    && end.threads == st.threads[t := end.threads[t]] && after.progress == trace.progress[t := after.progress[t]]
    && ThreadRouted(end, after, t) && CallsOk(end.config, after.calls)
    && QueuesOk(end, after) && StatsOk(end.stats, after.calls)
  }

  /** What a step may rely on. */
  ghost predicate Before(st: State, trace: Trace, t: nat) {
    && Live(st, t) && |trace.progress| == |st.threads|
    && ThreadRouted(st, trace, t) && CallsOk(st.config, trace.calls)
    && QueuesOk(st, trace) && StatsOk(st.stats, trace.calls)
  }

  lemma NumberAppend(calls: seq<Call>, c: Call, exit: Exit)
    ensures Number(calls + [c], exit) == Number(calls, exit) + if c.exit == exit then 1 else 0
  {
    assert (calls + [c])[..|calls|] == calls;
  }

  /** A call that ends is counted once. */
  lemma CallEnds(config: Config, stats: Stats, calls: seq<Call>, c: Call, after: Stats)
    requires CallsOk(config, calls) && CallOk(config, c) && StatsOk(stats, calls)
    requires after == match c.exit
                      case Success => stats.(accepted := stats.accepted + 1)
                      case BufferFull => stats.(dropped := stats.dropped + 1)
                      case InvalidEncoding => stats
                      case _ => stats.(errors := stats.errors + 1)
    ensures CallsOk(config, calls + [c]) && StatsOk(after, calls + [c])
  {
    NumberAppend(calls, c, Success);
    NumberAppend(calls, c, BufferFull);
    NumberAppend(calls, c, OutOfMemory);
    NumberAppend(calls, c, SinkWriteFailed);
    NumberAppend(calls, c, NoPersistentSink);
  }

  lemma EntriesAppend(queue: seq<nat>, i: nat, levels: map<nat, nat>)
    ensures Entries(queue + [i], levels) == Entries(queue, levels) + [Entry(i, LevelOf(levels, i))]
  {
  }

  lemma EntriesTake(queue: seq<nat>, levels: map<nat, nat>)
    requires queue != []
    ensures Entries(queue, levels) == [Entry(queue[0], LevelOf(levels, queue[0]))] + Entries(queue[1..], levels)
  {
  }

  /** A record enters the ring behind the others. */
  lemma EntersRing(st: State, trace: Trace, end: State, after: Trace, i: nat)
    requires QueuesOk(st, trace) && LevelOf(trace.levels, i) < 6 && after.levels == trace.levels
    requires end.ring == st.ring + [i] && after.ringIn == trace.ringIn + [Entry(i, LevelOf(trace.levels, i))]
    requires end.audit == st.audit && after.ringOut == trace.ringOut
    requires after.auditIn == trace.auditIn && after.auditOut == trace.auditOut
    ensures QueuesOk(end, after)
  {
    EntriesAppend(st.ring, i, trace.levels);
  }

  lemma EntersAudit(st: State, trace: Trace, end: State, after: Trace, i: nat)
    requires QueuesOk(st, trace) && LevelOf(trace.levels, i) == 6 && after.levels == trace.levels
    requires end.audit == st.audit + [i] && after.auditIn == trace.auditIn + [Entry(i, LevelOf(trace.levels, i))]
    requires end.ring == st.ring && after.auditOut == trace.auditOut
    requires after.ringIn == trace.ringIn && after.ringOut == trace.ringOut
    ensures QueuesOk(end, after)
  {
    EntriesAppend(st.audit, i, trace.levels);
  }

  /** The oldest record leaves the ring. */
  lemma LeavesRing(st: State, trace: Trace, end: State, after: Trace)
    requires QueuesOk(st, trace) && st.ring != [] && after.levels == trace.levels
    requires end.ring == st.ring[1..] && end.audit == st.audit
    requires after.ringOut == trace.ringOut + [Entry(st.ring[0], LevelOf(trace.levels, st.ring[0]))]
    requires after.ringIn == trace.ringIn && after.auditIn == trace.auditIn && after.auditOut == trace.auditOut
    ensures QueuesOk(end, after) && LevelOf(trace.levels, st.ring[0]) < 6
  {
    EntriesTake(st.ring, trace.levels);
    assert trace.ringIn[|trace.ringOut|] == Entries(st.ring, trace.levels)[0];
  }

  lemma LeavesAudit(st: State, trace: Trace, end: State, after: Trace)
    requires QueuesOk(st, trace) && st.audit != [] && after.levels == trace.levels
    requires end.audit == st.audit[1..] && end.ring == st.ring
    requires after.auditOut == trace.auditOut + [Entry(st.audit[0], LevelOf(trace.levels, st.audit[0]))]
    requires after.auditIn == trace.auditIn && after.ringIn == trace.ringIn && after.ringOut == trace.ringOut
    ensures QueuesOk(end, after) && LevelOf(trace.levels, st.audit[0]) == 6
  {
    EntriesTake(st.audit, trace.levels);
    assert trace.auditIn[|trace.auditOut|] == Entries(st.audit, trace.levels)[0];
  }

  // ---------------------------------------------------------------------------------------------
  // One step
  // ---------------------------------------------------------------------------------------------

  /** The state after an admitted push by thread `t`, ... */
  function Pushed(st: State, t: nat, i: nat): State
    requires Live(st, t)
  {
    Accept(st.(ring := st.ring + [i]), t)
  }

  /** ... and what the observer adds. */
  function PushSeen(trace: Trace, t: nat, i: nat): Trace
    requires t < |trace.progress|
  {
    var p := trace.progress[t];
    Returned(EnterRing(With(trace, t, p.(pushes := p.pushes + 1)), i), t, Success)
  }

  lemma PushStep(st: State, trace: Trace, t: nat, action: Action)
    requires Live(st, t) && |trace.progress| == |st.threads|
    requires st.threads[t].Pushing? || st.threads[t].Retrying?
    requires |st.ring| < st.config.ringCapacity && action != StaleFull
    ensures var end := ThreadStep(st, t, action);
            end == Pushed(st, t, st.threads[t].i)
            && ObserveStep(st, t, end.threads[t], trace) == PushSeen(trace, t, st.threads[t].i)
  {
  }

  lemma PushCallOk(st: State, trace: Trace, t: nat)
    requires Live(st, t) && |trace.progress| == |st.threads| && ThreadRouted(st, trace, t)
    requires (st.threads[t].Pushing? || st.threads[t].Retrying?) && |st.ring| < st.config.ringCapacity
    ensures var p := trace.progress[t]; CallOk(st.config, Call(p.(pushes := p.pushes + 1), Success))
    ensures LevelOf(trace.levels, st.threads[t].i) < 6
  {
  }

  lemma PushedOk(st: State, trace: Trace, t: nat, i: nat)
    requires Live(st, t) && |trace.progress| == |st.threads| && LevelOf(trace.levels, i) < 6
    requires CallsOk(st.config, trace.calls) && QueuesOk(st, trace) && StatsOk(st.stats, trace.calls)
    requires var p := trace.progress[t]; CallOk(st.config, Call(p.(pushes := p.pushes + 1), Success))
    ensures StepOk(st, trace, t, Pushed(st, t, i), PushSeen(trace, t, i))
  {
    var p := trace.progress[t];
    CallEnds(st.config, st.stats, trace.calls, Call(p.(pushes := p.pushes + 1), Success), Pushed(st, t, i).stats);
    EntersRing(st, trace, Pushed(st, t, i), PushSeen(trace, t, i), i);
  }

  /** A push onto the ring that is admitted. */
  lemma PushAdmitted(st: State, trace: Trace, t: nat, action: Action)
    requires Before(st, trace, t) && (st.threads[t].Pushing? || st.threads[t].Retrying?)
    requires |st.ring| < st.config.ringCapacity && action != StaleFull
    ensures var end := ThreadStep(st, t, action);
            StepOk(st, trace, t, end, ObserveStep(st, t, end.threads[t], trace))
  {
    PushStep(st, trace, t, action);
    PushCallOk(st, trace, t);
    PushedOk(st, trace, t, st.threads[t].i);
  }

  /** A push that finds the ring full. */
  lemma PushRefused(st: State, trace: Trace, t: nat, action: Action)
    requires Before(st, trace, t) && (st.threads[t].Pushing? || st.threads[t].Retrying?)
    requires |st.ring| >= st.config.ringCapacity || action == StaleFull
    ensures var end := ThreadStep(st, t, action);
            StepOk(st, trace, t, end, ObserveStep(st, t, end.threads[t], trace))
  {
  }

  lemma AuditAdmitted(st: State, trace: Trace, t: nat, action: Action)
    requires Before(st, trace, t) && st.threads[t].Auditing? && !st.auditFailed
    requires |st.audit| < st.config.auditCapacity && action != StaleFull
    ensures var end := ThreadStep(st, t, action);
            StepOk(st, trace, t, end, ObserveStep(st, t, end.threads[t], trace))
  {
    var i, p := st.threads[t].i, trace.progress[t];
    var end := ThreadStep(st, t, action);
    var after := ObserveStep(st, t, end.threads[t], trace);
    EntersAudit(st, trace, end, after, i);
    CallEnds(st.config, st.stats, trace.calls, Call(p, Success), end.stats);
  }

  lemma AuditRefused(st: State, trace: Trace, t: nat, action: Action)
    requires Before(st, trace, t) && st.threads[t].Auditing?
    requires st.auditFailed || |st.audit| >= st.config.auditCapacity || action == StaleFull
    ensures var end := ThreadStep(st, t, action);
            StepOk(st, trace, t, end, ObserveStep(st, t, end.threads[t], trace))
  {
  }

  lemma FillChecked(st: State, trace: Trace, t: nat, action: Action)
    requires Before(st, trace, t) && st.threads[t].CheckingFill?
    ensures var end := ThreadStep(st, t, action);
            StepOk(st, trace, t, end, ObserveStep(st, t, end.threads[t], trace))
  {
  }

  lemma HelpObserved(st: State, trace: Trace, t: nat, action: Action)
    requires Before(st, trace, t) && st.threads[t].Helping?
    ensures var end := ThreadStep(st, t, action);
            StepOk(st, trace, t, end, ObserveStep(st, t, end.threads[t], trace))
  {
    var end := ThreadStep(st, t, action);
    var after := ObserveStep(st, t, end.threads[t], trace);
    if end.threads[t].HelperFreeing? { LeavesRing(st, trace, end, after); }
  }

  lemma FreedObserved(st: State, trace: Trace, t: nat, action: Action)
    requires Before(st, trace, t)
    requires st.threads[t].HelperFreeing? || st.threads[t].Freeing? || st.threads[t].AuditFreeing?
    ensures var end := ThreadStep(st, t, action);
            StepOk(st, trace, t, end, ObserveStep(st, t, end.threads[t], trace))
  {
  }

  lemma ReturnObserved(st: State, trace: Trace, t: nat, action: Action)
    requires Before(st, trace, t) && st.threads[t].Returning?
    ensures var end := ThreadStep(st, t, action);
            StepOk(st, trace, t, end, ObserveStep(st, t, end.threads[t], trace))
  {
    var call := Call(trace.progress[t], st.threads[t].exit);
    CallEnds(st.config, st.stats, trace.calls, call, ThreadStep(st, t, action).stats);
  }

  lemma DrainObserved(st: State, trace: Trace, t: nat, action: Action)
    requires Before(st, trace, t) && st.threads[t].Draining?
    ensures var end := ThreadStep(st, t, action);
            StepOk(st, trace, t, end, ObserveStep(st, t, end.threads[t], trace))
  {
    var end := ThreadStep(st, t, action);
    var after := ObserveStep(st, t, end.threads[t], trace);
    if end.threads[t].Freeing? { LeavesRing(st, trace, end, after); }
  }

  lemma AuditDrainObserved(st: State, trace: Trace, t: nat, action: Action)
    requires Before(st, trace, t) && st.threads[t].AuditDraining?
    ensures var end := ThreadStep(st, t, action);
            StepOk(st, trace, t, end, ObserveStep(st, t, end.threads[t], trace))
  {
    var end := ThreadStep(st, t, action);
    var after := ObserveStep(st, t, end.threads[t], trace);
    if end.threads[t].AuditFreeing? { LeavesAudit(st, trace, end, after); }
  }

  lemma PoolExhausted(st: State, trace: Trace, t: nat, action: Action)
    requires Before(st, trace, t) && st.threads[t].Allocating? && st.free == []
    ensures var end := ThreadStep(st, t, action);
            StepOk(st, trace, t, end, ObserveStep(st, t, end.threads[t], trace))
  {
    var call := Call(trace.progress[t], OutOfMemory);
    CallEnds(st.config, st.stats, trace.calls, call, ThreadStep(st, t, action).stats);
  }

  /** Every step but one that allocates. */
  lemma StepObserved(st: State, trace: Trace, t: nat, action: Action)
    requires Before(st, trace, t) && (st.threads[t].Allocating? ==> st.free == [])
    ensures var end := ThreadStep(st, t, action);
            StepOk(st, trace, t, end, ObserveStep(st, t, end.threads[t], trace))
  {
    match st.threads[t]
    case Idle(_) =>
    case Allocating(_) => PoolExhausted(st, trace, t, action);
    case Auditing(_) =>
      if st.auditFailed || |st.audit| >= st.config.auditCapacity || action == StaleFull {
        AuditRefused(st, trace, t, action);
      } else {
        AuditAdmitted(st, trace, t, action);
      }
    case Helping(_, _, _) => HelpObserved(st, trace, t, action);
    case CheckingFill(_) => FillChecked(st, trace, t, action);
    case Returning(_, _) => ReturnObserved(st, trace, t, action);
    case Draining(_) => DrainObserved(st, trace, t, action);
    case AuditDraining(_) => AuditDrainObserved(st, trace, t, action);
    case HelperFreeing(_, _, _, _) => FreedObserved(st, trace, t, action);
    case Freeing(_, _) => FreedObserved(st, trace, t, action);
    case AuditFreeing(_, _) => FreedObserved(st, trace, t, action);
    case _ =>
      if |st.ring| < st.config.ringCapacity && action != StaleFull {
        PushAdmitted(st, trace, t, action);
      } else {
        PushRefused(st, trace, t, action);
      }
  }

  // ---------------------------------------------------------------------------------------------
  // The other threads, and the other records
  // ---------------------------------------------------------------------------------------------

  lemma OthersKeep(st: State, trace: Trace, t: nat, end: State, after: Trace)
    requires Observed(st, trace) && t < |st.threads| == |end.threads| == |after.progress|
    requires StepOk(st, trace, t, end, after)
    ensures Observed(end, after)
  {
    forall u: nat | u < |end.threads| ensures ThreadRouted(end, after, u) {
      if u != t { assert ThreadRouted(st, trace, u); }
    }
  }

  lemma {:induction false} HolderCounts(threads: seq<Pc>, t: nat, i: nat)
    requires t < |threads|
    ensures Is(Own(threads[t]), i) <= Producers(threads, i) && Is(Taken(threads[t]), i) <= Consumers(threads, i)
  {
    if t > 0 { HolderCounts(threads[1..], t - 1, i); }
  }

  /** Nobody holds record `i` of the pool, and it is on no queue. */
  ghost predicate Nowhere(st: State, i: nat) {
    && i < st.config.poolCapacity && i !in st.ring && i !in st.audit
    && forall t: nat :: t < |st.threads| ==> Own(st.threads[t]) != Some(i) && Taken(st.threads[t]) != Some(i)
  }

  lemma FreeIsNowhereElse(st: State)
    requires Invariant(st) && st.free != []
    ensures Nowhere(st, st.free[0])
  {
    var i := st.free[0];
    assert i in multiset(st.free);
    assert Places(st, i) == if i < st.config.poolCapacity then 1 else 0;
    assert i in st.ring ==> i in multiset(st.ring);
    assert i in st.audit ==> i in multiset(st.audit);
    forall t: nat | t < |st.threads| ensures Own(st.threads[t]) != Some(i) && Taken(st.threads[t]) != Some(i) {
      HolderCounts(st.threads, t, i);
    }
  }

  lemma LevelElsewhere(config: Config, levels: map<nat, nat>, p: Progress, pc: Pc, i: nat, level: nat)
    requires PcRouted(config, levels, p, pc) && Own(pc) != Some(i) && Taken(pc) != Some(i)
    ensures PcRouted(config, levels[i := level], p, pc)
  {
  }

  lemma EntriesElsewhere(queue: seq<nat>, levels: map<nat, nat>, i: nat, level: nat)
    requires i !in queue
    ensures Entries(queue, levels[i := level]) == Entries(queue, levels)
  {
  }

  /** A filled record goes where its level and texts send it. */
  lemma RouteRouted(config: Config, levels: map<nat, nat>, p: Params, i: nat)
    requires config.poolCapacity > 0
    ensures PcRouted(config, levels[i := RecordLevel(p.level)], NewCall(p), Route(config, p, i))
  {
  }

  lemma AllocationObserved(st: State, trace: Trace, t: nat, action: Action)
    requires Observed(st, trace) && Live(st, t) && st.threads[t].Allocating? && st.free != []
    requires Nowhere(st, st.free[0])
    ensures var end := ThreadStep(st, t, action);
            Observed(end, ObserveStep(st, t, end.threads[t], trace))
  {
    var end := ThreadStep(st, t, action);
    var after := ObserveStep(st, t, end.threads[t], trace);
    var i, p := st.free[0], st.threads[t].params;
    EntriesElsewhere(st.ring, trace.levels, i, RecordLevel(p.level));
    EntriesElsewhere(st.audit, trace.levels, i, RecordLevel(p.level));
    assert ThreadRouted(st, trace, t);
    RouteRouted(st.config, trace.levels, p, i);
    forall u: nat | u < |end.threads| ensures ThreadRouted(end, after, u) {
      if u != t {
        assert ThreadRouted(st, trace, u);
        LevelElsewhere(st.config, trace.levels, trace.progress[u], st.threads[u], i, RecordLevel(p.level));
      }
    }
  }

  // ---------------------------------------------------------------------------------------------
  // Every run
  // ---------------------------------------------------------------------------------------------

  lemma InitObserved(config: Config, threads: nat)
    ensures Observed(Init(config, threads), NoTrace(threads))
  {
  }

  /** A thread that starts a call, or does nothing. */
  lemma StartRouted(st: State, trace: Trace, m: Move, u: nat)
    requires |st.threads| == |st.ledgers| == |trace.progress| && u < |st.threads| && ThreadRouted(st, trace, u)
    requires !m.action.Go? && !m.action.StaleFull? && !m.action.StopShort?
    ensures ThreadRouted(Step(st, m), Observe(st, m, trace), u)
  {
  }

  /** A call that starts, and a failing audit pipeline. */
  lemma StartObserved(st: State, trace: Trace, m: Move)
    requires Observed(st, trace) && |st.threads| == |st.ledgers|
    requires !m.action.Go? && !m.action.StaleFull? && !m.action.StopShort?
    ensures Observed(Step(st, m), Observe(st, m, trace))
  {
    forall u: nat | u < |st.threads| ensures ThreadRouted(Step(st, m), Observe(st, m, trace), u) {
      assert ThreadRouted(st, trace, u);
      StartRouted(st, trace, m, u);
    }
  }

  lemma ThreadStepObserved(st: State, trace: Trace, t: nat, action: Action)
    requires Observed(st, trace) && Live(st, t)
    requires st.threads[t].Allocating? && st.free != [] ==> Nowhere(st, st.free[0])
    ensures var end := ThreadStep(st, t, action);
            Observed(end, ObserveStep(st, t, end.threads[t], trace))
  {
    if st.threads[t].Allocating? && st.free != [] {
      AllocationObserved(st, trace, t, action);
    } else {
      assert ThreadRouted(st, trace, t);
      StepObserved(st, trace, t, action);
      var end := ThreadStep(st, t, action);
      OthersKeep(st, trace, t, end, ObserveStep(st, t, end.threads[t], trace));
    }
  }

  lemma MoveObserved(st: State, trace: Trace, m: Move)
    requires Observed(st, trace) && |st.threads| == |st.ledgers| && (st.free != [] ==> Nowhere(st, st.free[0]))
    ensures Observed(Step(st, m), Observe(st, m, trace))
  {
    if m.action.Go? || m.action.StaleFull? || m.action.StopShort? {
      if m.thread < |st.threads| { ThreadStepObserved(st, trace, m.thread, m.action); }
    } else {
      StartObserved(st, trace, m);
    }
  }

  lemma {:induction false} RunObserved(st: State, schedule: seq<Move>, trace: Trace)
    requires Invariant(st) && Observed(st, trace)
    ensures Observed(Run(st, schedule), Watch(st, schedule, trace))
    decreases |schedule|
  {
    if schedule != [] {
      StepKeeps(st, schedule[0]);
      if st.free != [] { FreeIsNowhereElse(st); }
      MoveObserved(st, trace, schedule[0]);
      RunObserved(Step(st, schedule[0]), schedule[1..], Observe(st, schedule[0], trace));
    }
  }
}
