/** Every step of logging, helping and consuming keeps the invariant of the log path (core/src/ffi.rs:209-334). */
module LogSteps {
  import opened LogPath
  import opened Wrappers

  lemma {:induction false} PlacesUpdate(threads: seq<Pc>, t: nat, pc: Pc, i: nat)
    requires t < |threads|
    ensures Producers(threads[t := pc], i) == Producers(threads, i) - Is(Own(threads[t]), i) + Is(Own(pc), i)
    ensures Consumers(threads[t := pc], i) == Consumers(threads, i) - Is(Taken(threads[t]), i) + Is(Taken(pc), i)
  {
    if t == 0 {
      assert threads[t := pc][1..] == threads[1..];
    } else {
      assert threads[t := pc][1..] == threads[1..][t - 1 := pc];
      PlacesUpdate(threads[1..], t - 1, pc, i);
    }
  }

  lemma {:induction false} CountsUpdate(threads: seq<Pc>, t: nat, pc: Pc)
    requires t < |threads|
    ensures Owned(threads[t := pc]) == Owned(threads) - IsSome(Own(threads[t])) + IsSome(Own(pc))
    ensures InFlight(threads[t := pc]) == InFlight(threads) - IsSome(Taken(threads[t])) + IsSome(Taken(pc))
  {
    if t == 0 {
      assert threads[t := pc][1..] == threads[1..];
    } else {
      assert threads[t := pc][1..] == threads[1..][t - 1 := pc];
      CountsUpdate(threads[1..], t - 1, pc);
    }
  }

  function Held(pc: Pc): nat {
    IsSome(Own(pc)) + IsSome(Taken(pc))
  }

  /** What a step of thread `t` must balance: each record, ... */
  ghost predicate Balanced(st: State, end: State, t: nat, i: nat)
    requires t < |st.threads| == |end.threads|
  {
    Queued(end, i) + Is(Own(end.threads[t]), i) + Is(Taken(end.threads[t]), i)
    == Queued(st, i) + Is(Own(st.threads[t]), i) + Is(Taken(st.threads[t]), i)
  }

  /** ... their number, and the accepted count. */
  ghost predicate Counted(st: State, end: State, t: nat)
    requires t < |st.threads| == |end.threads|
  {
    && |end.free| + |end.ring| + |end.audit| + Held(end.threads[t])
       == |st.free| + |st.ring| + |st.audit| + Held(st.threads[t])
    && end.stats.accepted - end.consumed - |end.ring| - |end.audit| - IsSome(Taken(end.threads[t]))
       == st.stats.accepted - st.consumed - |st.ring| - |st.audit| - IsSome(Taken(st.threads[t]))
  }

  lemma BalancedStepKeeps(st: State, end: State, t: nat, pc: Pc, ledger: Ledger)
    requires Invariant(st) && t < |st.threads|
    requires end.config == st.config && end.threads == st.threads[t := pc] && end.ledgers == st.ledgers[t := ledger]
    requires LedgerOk(pc, ledger) && Counted(st, end, t) && forall i: nat :: Balanced(st, end, t, i)
    ensures Invariant(end)
  {
    CountsUpdate(st.threads, t, pc);
    forall i: nat ensures Places(end, i) == if i < st.config.poolCapacity then 1 else 0 {
      PlacesUpdate(st.threads, t, pc, i);
      assert Places(st, i) == if i < st.config.poolCapacity then 1 else 0;
      assert Balanced(st, end, t, i);
    }
  }

  /** All a step of thread `t` must do, for record `i`. */
  ghost predicate Kept(st: State, end: State, t: nat, i: nat)
    requires t < |st.threads| == |end.threads| == |st.ledgers| == |end.ledgers|
  {
    && LedgerOk(end.threads[t], end.ledgers[t]) && Counted(st, end, t) && Balanced(st, end, t, i)
    && end.threads == st.threads[t := end.threads[t]] && end.ledgers == st.ledgers[t := end.ledgers[t]]
  }

  lemma PutMoves(s: seq<nat>, j: nat, i: nat)
    ensures multiset([j] + s)[i] == multiset(s)[i] + Is(Some(j), i)
    ensures multiset(s + [j])[i] == multiset(s)[i] + Is(Some(j), i)
  {
  }

  lemma TakeMoves(s: seq<nat>, i: nat)
    requires s != []
    ensures multiset(s)[i] == Is(Some(s[0]), i) + multiset(s[1..])[i]
  {
    assert s == [s[0]] + s[1..];
  }

  lemma AllocateStep(st: State, t: nat, action: Action, i: nat)
    requires Live(st, t) && LedgerOk(st.threads[t], st.ledgers[t]) && st.threads[t].Allocating?
    ensures Kept(st, ThreadStep(st, t, action), t, i)
  {
    if st.free != [] { TakeMoves(st.free, i); }
  }

  lemma AuditPushStep(st: State, t: nat, action: Action, i: nat)
    requires Live(st, t) && LedgerOk(st.threads[t], st.ledgers[t]) && st.threads[t].Auditing?
    ensures Kept(st, ThreadStep(st, t, action), t, i)
  {
    PutMoves(st.audit, st.threads[t].i, i);
  }

  lemma RingAccepts(st: State, t: nat, i: nat)
    requires Live(st, t) && LedgerOk(st.threads[t], st.ledgers[t])
    requires (st.threads[t].Pushing? || st.threads[t].Retrying?)
    ensures Kept(st, Accept(st.(ring := st.ring + [st.threads[t].i]), t), t, i)
  {
    PutMoves(st.ring, st.threads[t].i, i);
  }

  /** A step after which the producer still holds its record. */
  lemma HeldOn(st: State, t: nat, pc: Pc, i: nat)
    requires Live(st, t) && LedgerOk(st.threads[t], st.ledgers[t])
    requires (st.threads[t].Pushing? || st.threads[t].Retrying?)
    requires (pc.CheckingFill? && pc.i == st.threads[t].i) || pc == Returning(st.threads[t].i, BufferFull)
    ensures Kept(st, Become(st, t, pc), t, i)
  {
  }

  lemma PushStep(st: State, t: nat, action: Action, i: nat)
    requires Live(st, t) && LedgerOk(st.threads[t], st.ledgers[t]) && st.threads[t].Pushing?
    ensures Kept(st, ThreadStep(st, t, action), t, i)
  {
    var j := st.threads[t].i;
    if |st.ring| < st.config.ringCapacity && action != StaleFull {
      RingAccepts(st, t, i);
    } else {
      HeldOn(st, t, if st.config.helping then CheckingFill(j) else Returning(j, BufferFull), i);
    }
  }

  lemma RetryStep(st: State, t: nat, action: Action, i: nat)
    requires Live(st, t) && LedgerOk(st.threads[t], st.ledgers[t]) && st.threads[t].Retrying?
    ensures Kept(st, ThreadStep(st, t, action), t, i)
  {
    if |st.ring| < st.config.ringCapacity && action != StaleFull {
      RingAccepts(st, t, i);
    } else {
      HeldOn(st, t, Returning(st.threads[t].i, BufferFull), i);
    }
  }

  lemma HelperTakes(st: State, t: nat, pc: Pc, i: nat)
    requires Live(st, t) && LedgerOk(st.threads[t], st.ledgers[t]) && st.threads[t].Helping? && st.ring != []
    requires pc.HelperFreeing? && pc.i == st.threads[t].i && pc.j == st.ring[0]
    ensures Kept(st, Become(st, t, pc).(ring := st.ring[1..]), t, i)
  {
    TakeMoves(st.ring, i);
  }

  lemma HelpingEnds(st: State, t: nat, i: nat)
    requires Live(st, t) && LedgerOk(st.threads[t], st.ledgers[t]) && st.threads[t].Helping?
    ensures Kept(st, Become(st, t, HelpDone(st.threads[t].i, st.threads[t].helped)), t, i)
  {
  }

  lemma HelpStep(st: State, t: nat, action: Action, i: nat)
    requires Live(st, t) && LedgerOk(st.threads[t], st.ledgers[t]) && st.threads[t].Helping?
    ensures Kept(st, ThreadStep(st, t, action), t, i)
  {
    var pc := st.threads[t];
    if pc.left == 0 || st.ring == [] || action == StopShort {
      HelpingEnds(st, t, i);
    } else {
      HelperTakes(st, t, HelperFreeing(pc.i, st.ring[0], pc.left - 1, pc.helped + 1), i);
    }
  }

  lemma ReturnStep(st: State, t: nat, action: Action, i: nat)
    requires Live(st, t) && LedgerOk(st.threads[t], st.ledgers[t]) && st.threads[t].Returning?
    ensures Kept(st, ThreadStep(st, t, action), t, i)
  {
    PutMoves(st.free, st.threads[t].i, i);
  }

  lemma DrainEnds(st: State, t: nat, i: nat)
    requires Live(st, t) && LedgerOk(st.threads[t], st.ledgers[t])
    requires st.threads[t].Draining? || st.threads[t].AuditDraining?
    ensures Kept(st, Become(st, t, Idle(Drained)), t, i)
  {
  }

  lemma RingTaken(st: State, t: nat, left: nat, i: nat)
    requires Live(st, t) && LedgerOk(st.threads[t], st.ledgers[t]) && st.threads[t].Draining? && st.ring != []
    ensures Kept(st, Become(st, t, Freeing(st.ring[0], left)).(ring := st.ring[1..]), t, i)
  {
    TakeMoves(st.ring, i);
  }

  lemma AuditTaken(st: State, t: nat, left: nat, i: nat)
    requires Live(st, t) && LedgerOk(st.threads[t], st.ledgers[t]) && st.threads[t].AuditDraining? && st.audit != []
    ensures Kept(st, Become(st, t, AuditFreeing(st.audit[0], left)).(audit := st.audit[1..]), t, i)
  {
    TakeMoves(st.audit, i);
  }

  lemma DrainIs(st: State, t: nat, action: Action)
    requires Live(st, t) && st.threads[t].Draining?
    ensures var left := st.threads[t].left;
            ThreadStep(st, t, action) ==
              if left == 0 || st.ring == [] then Become(st, t, Idle(Drained))
              else Become(st, t, Freeing(st.ring[0], left - 1)).(ring := st.ring[1..])
  {
  }

  lemma DrainStep(st: State, t: nat, action: Action, i: nat)
    requires Live(st, t) && LedgerOk(st.threads[t], st.ledgers[t]) && st.threads[t].Draining?
    ensures Kept(st, ThreadStep(st, t, action), t, i)
  {
    var left := st.threads[t].left;
    DrainIs(st, t, action);
    if left == 0 || st.ring == [] { DrainEnds(st, t, i); } else { RingTaken(st, t, left - 1, i); }
  }

  lemma AuditDrainIs(st: State, t: nat, action: Action)
    requires Live(st, t) && st.threads[t].AuditDraining?
    ensures var left := st.threads[t].left;
            ThreadStep(st, t, action) ==
              if left == 0 || st.audit == [] then Become(st, t, Idle(Drained))
              else Become(st, t, AuditFreeing(st.audit[0], left - 1)).(audit := st.audit[1..])
  {
  }

  lemma AuditDrainStep(st: State, t: nat, action: Action, i: nat)
    requires Live(st, t) && LedgerOk(st.threads[t], st.ledgers[t]) && st.threads[t].AuditDraining?
    ensures Kept(st, ThreadStep(st, t, action), t, i)
  {
    var left := st.threads[t].left;
    AuditDrainIs(st, t, action);
    if left == 0 || st.audit == [] { DrainEnds(st, t, i); } else { AuditTaken(st, t, left - 1, i); }
  }

  lemma FreeStep(st: State, t: nat, action: Action, i: nat)
    requires Live(st, t) && LedgerOk(st.threads[t], st.ledgers[t])
    requires st.threads[t].HelperFreeing? || st.threads[t].Freeing? || st.threads[t].AuditFreeing?
    ensures Kept(st, ThreadStep(st, t, action), t, i)
  {
    PutMoves(st.free, st.threads[t].j, i);
  }

  lemma IdleStep(st: State, t: nat, action: Action, i: nat)
    requires Live(st, t) && LedgerOk(st.threads[t], st.ledgers[t])
    requires (st.threads[t].Idle? || st.threads[t].CheckingFill?)
    ensures Kept(st, ThreadStep(st, t, action), t, i)
  {
  }

  lemma ThreadStepOk(st: State, t: nat, action: Action, i: nat)
    requires Live(st, t) && LedgerOk(st.threads[t], st.ledgers[t])
    ensures Kept(st, ThreadStep(st, t, action), t, i)
  {
    match st.threads[t]
    case Allocating(_) => AllocateStep(st, t, action, i);
    case Auditing(_) => AuditPushStep(st, t, action, i);
    case Pushing(_) => PushStep(st, t, action, i);
    case Retrying(_) => RetryStep(st, t, action, i);
    case Helping(_, _, _) => HelpStep(st, t, action, i);
    case Returning(_, _) => ReturnStep(st, t, action, i);
    case Draining(_) => DrainStep(st, t, action, i);
    case AuditDraining(_) => AuditDrainStep(st, t, action, i);
    case HelperFreeing(_, _, _, _) => FreeStep(st, t, action, i);
    case Freeing(_, _) => FreeStep(st, t, action, i);
    case AuditFreeing(_, _) => FreeStep(st, t, action, i);
    case Idle(_) => IdleStep(st, t, action, i);
    case CheckingFill(_) => IdleStep(st, t, action, i);
  }

  lemma ThreadStepKeeps(st: State, t: nat, action: Action)
    requires Invariant(st) && t < |st.threads|
    ensures Invariant(ThreadStep(st, t, action))
  {
    var end := ThreadStep(st, t, action);
    assert LedgerOk(st.threads[t], st.ledgers[t]);
    ThreadStepOk(st, t, action, 0);
    forall i: nat ensures Balanced(st, end, t, i) {
      ThreadStepOk(st, t, action, i);
    }
    BalancedStepKeeps(st, end, t, end.threads[t], end.ledgers[t]);
  }

  lemma StartStep(st: State, t: nat, pc: Pc, i: nat)
    requires Live(st, t) && st.threads[t].Idle?
    requires pc.Allocating? || pc == Idle(InvalidArgument) || pc.Draining? || pc.AuditDraining?
    ensures Kept(st, Start(st, t, pc), t, i)
  {
  }

  lemma StartKeeps(st: State, t: nat, pc: Pc)
    requires Invariant(st) && t < |st.threads| && st.threads[t].Idle?
    requires pc.Allocating? || pc == Idle(InvalidArgument) || pc.Draining? || pc.AuditDraining?
    ensures Invariant(Start(st, t, pc))
  {
    assert LedgerOk(st.threads[t], st.ledgers[t]);
    forall i: nat ensures Balanced(st, Start(st, t, pc), t, i) {
      StartStep(st, t, pc, i);
    }
    StartStep(st, t, pc, 0);
    BalancedStepKeeps(st, Start(st, t, pc), t, pc, Ledger(0, 0, 0));
  }

  lemma AuditFailureKeeps(st: State)
    requires Invariant(st)
    ensures Invariant(st.(auditFailed := true))
  {
    forall i: nat ensures Places(st.(auditFailed := true), i) == Places(st, i) {
    }
  }

  lemma StepKeeps(st: State, m: Move)
    requires Invariant(st)
    ensures Invariant(Step(st, m))
  {
    var t := m.thread;
    if t < |st.threads| {
      if m.action.AuditFails? {
        AuditFailureKeeps(st);
      } else if m.action.Go? || m.action.StaleFull? || m.action.StopShort? {
        ThreadStepKeeps(st, t, m.action);
      } else if st.threads[t].Idle? {
        match m.action
        case Log(p) => StartKeeps(st, t, Allocating(p));
        case LogNull => StartKeeps(st, t, Idle(InvalidArgument));
        case Consume(batch) => StartKeeps(st, t, Draining(batch));
        case ConsumeAudit(batch) => StartKeeps(st, t, AuditDraining(batch));
      }
    }
  }

  lemma {:induction false} NobodyHolds(threads: seq<Pc>, i: nat)
    requires forall t :: 0 <= t < |threads| ==> Own(threads[t]) == Taken(threads[t]) == None
    ensures Producers(threads, i) == Consumers(threads, i) == 0
    ensures Owned(threads) == InFlight(threads) == 0
  {
    if threads != [] { NobodyHolds(threads[1..], i); }
  }

  lemma {:induction false} EverythingOnce(capacity: nat, i: nat)
    ensures multiset(Everything(capacity))[i] == if i < capacity then 1 else 0
  {
    if capacity > 0 {
      EverythingOnce(capacity - 1, i);
      assert Everything(capacity) == Everything(capacity - 1) + [capacity - 1];
    }
  }

  lemma InitOk(config: Config, threads: nat)
    ensures Invariant(Init(config, threads))
  {
    var st := Init(config, threads);
    NobodyHolds(st.threads, 0);
    forall i: nat ensures Places(st, i) == if i < config.poolCapacity then 1 else 0 {
      NobodyHolds(st.threads, i);
      EverythingOnce(config.poolCapacity, i);
    }
  }

  lemma {:induction false} RunKeeps(st: State, schedule: seq<Move>)
    requires Invariant(st)
    ensures Invariant(Run(st, schedule))
    decreases |schedule|
  {
    if schedule != [] {
      StepKeeps(st, schedule[0]);
      RunKeeps(Step(st, schedule[0]), schedule[1..]);
    }
  }
}
