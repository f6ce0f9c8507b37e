/** From every reachable state of the hand-off protocol all calls can return. */
module RingProgress {
  import opened RingMachine
  import opened RingTheorems

  // ---------------------------------------------------------------------------------------------
  // What remains to be done
  // ---------------------------------------------------------------------------------------------

  /** The CASes a call has still to win. */
  function CasesLeft(pc: Pc): nat {
    match pc
    case PushLoadConsumer(_) => 1
    case PushLoadProducer(_, _) => 1
    case PushCas(_, _) => 1
    case PushWait(_, _) => 0
    case PushWrite(_, _) => 0
    case PushPublish(_, _) => 0
    case Idle(_) => 0
    case _ => if pc.drain.wins < pc.drain.batch then pc.drain.batch - pc.drain.wins else 0
  }

  /** An upper bound on the own steps before a call wins its next CAS or returns, as long as no CAS is won elsewhere. */
  function StepsLeft(pc: Pc, producer: nat, consumer: nat): nat {
    match pc
    case Idle(_) => 0
    case PushLoadConsumer(_) => 3
    case PushLoadProducer(_, _) => 2
    case PushCas(_, p) => if p == producer then 1 else 4
    case PushWait(_, _) => 3
    case PushWrite(_, _) => 2
    case PushPublish(_, _) => 1
    case DrainLoadConsumer(_) => 5
    case DrainLoadProducer(_, c) => if c == consumer then 4 else 9
    case DrainWait(_, c) => if c == consumer then 2 else 8
    case DrainRecheck(_, c) => if c == consumer then 3 else 6
    case DrainCas(_, c) => if c == consumer then 1 else 7
    case DrainTake(_, _) => 8
    case DrainCallback(_, _, _) => 7
    case DrainRelease(_, _) => 6
  }

  function AllCasesLeft(threads: seq<Pc>): nat {
    if threads == [] then 0 else CasesLeft(threads[0]) + AllCasesLeft(threads[1..])
  }

  function AllStepsLeft(threads: seq<Pc>, producer: nat, consumer: nat): nat {
    if threads == [] then 0
    else StepsLeft(threads[0], producer, consumer) + AllStepsLeft(threads[1..], producer, consumer)
  }

  lemma {:induction false} LeftUpdate(threads: seq<Pc>, t: nat, pc: Pc, producer: nat, consumer: nat)
    requires t < |threads|
    ensures AllCasesLeft(threads[t := pc]) + CasesLeft(threads[t]) == AllCasesLeft(threads) + CasesLeft(pc)
    ensures AllStepsLeft(threads[t := pc], producer, consumer) + StepsLeft(threads[t], producer, consumer)
         == AllStepsLeft(threads, producer, consumer) + StepsLeft(pc, producer, consumer)
  {
    if t == 0 {
      assert threads[t := pc][1..] == threads[1..];
    } else {
      assert threads[t := pc][1..] == threads[1..][t - 1 := pc];
      LeftUpdate(threads[1..], t - 1, pc, producer, consumer);
    }
  }

  /** The call wins a CAS it has to win, or wins none and comes nearer to one or to its return. */
  ghost predicate Nearer(st: State, t: nat, end: State)
    requires t < |st.threads| == |end.threads|
  {
    || CasesLeft(end.threads[t]) < CasesLeft(st.threads[t])
    || (&& CasesLeft(end.threads[t]) == CasesLeft(st.threads[t])
        && end.producer == st.producer && end.consumer == st.consumer
        && StepsLeft(end.threads[t], st.producer, st.consumer) < StepsLeft(st.threads[t], st.producer, st.consumer))
  }

  lemma PushStepNearer(st: State, t: nat)
    requires Counters(st) && t < |st.threads| && ThreadOk(st, t) && IsPush(st.threads[t]) && !Spinning(st, t)
    ensures Nearer(st, t, ThreadStep(st, t, true))
  {
  }

  lemma DrainLoadNearer(st: State, t: nat)
    requires Counters(st) && t < |st.threads| && ThreadOk(st, t) && !Spinning(st, t) && IsLooking(st.threads[t])
    ensures Nearer(st, t, ThreadStep(st, t, true))
  {
  }

  lemma DrainCasNearer(st: State, t: nat)
    requires Counters(st) && t < |st.threads| && ThreadOk(st, t) && !Spinning(st, t) && st.threads[t].DrainCas?
    ensures Nearer(st, t, ThreadStep(st, t, true))
  {
  }

  lemma DrainHoldNearer(st: State, t: nat)
    requires Counters(st) && t < |st.threads| && ThreadOk(st, t) && IsHolding(st.threads[t])
    ensures Nearer(st, t, ThreadStep(st, t, true))
  {
  }

  lemma WinningStepNearer(st: State, t: nat)
    requires Counters(st) && t < |st.threads| && ThreadOk(st, t) && !st.threads[t].Idle? && !Spinning(st, t)
    ensures Nearer(st, t, ThreadStep(st, t, true))
  {
    if IsPush(st.threads[t]) {
      PushStepNearer(st, t);
    } else if st.threads[t].DrainCas? {
      DrainCasNearer(st, t);
    } else if IsHolding(st.threads[t]) {
      DrainHoldNearer(st, t);
    } else {
      DrainLoadNearer(st, t);
    }
  }

  lemma OnlyCasesFail(st: State, t: nat)
    requires Live(st, t) && !st.threads[t].PushCas? && !st.threads[t].DrainCas?
    ensures ThreadStep(st, t, false) == ThreadStep(st, t, true)
  {
  }

  /**
   Every step that is not a spin brings its call nearer, unless its CAS fails spuriously; then the call starts its
   round over, or returns if it is a helper, and nothing else changes.
   */
  lemma OwnStepDecreases(st: State, t: nat, casMayWin: bool)
    requires Counters(st) && t < |st.threads| && ThreadOk(st, t) && !st.threads[t].Idle? && !Spinning(st, t)
    ensures var pc, end := st.threads[t], ThreadStep(st, t, casMayWin);
            if !casMayWin && pc.PushCas? then end == Become(st, t, PushLoadConsumer(pc.item))
            else if !casMayWin && pc.DrainCas? then end == Become(st, t, GiveUp(pc.drain, DrainLoadConsumer(pc.drain)))
            else Nearer(st, t, end)
  {
    WinningStepNearer(st, t);
    if !casMayWin && !st.threads[t].PushCas? && !st.threads[t].DrainCas? { OnlyCasesFail(st, t); }
  }

  /** Fewer CASes are left to be won, or as many and fewer steps before the next. */
  ghost predicate Lower(end: State, st: State) {
    || AllCasesLeft(end.threads) < AllCasesLeft(st.threads)
    || (&& AllCasesLeft(end.threads) == AllCasesLeft(st.threads)
        && AllStepsLeft(end.threads, end.producer, end.consumer)
           < AllStepsLeft(st.threads, st.producer, st.consumer))
  }

  lemma StepDecreases(st: State, t: nat)
    requires Counters(st) && t < |st.threads| && ThreadOk(st, t) && !st.threads[t].Idle? && !Spinning(st, t)
    ensures Lower(ThreadStep(st, t, true), st)
  {
    OwnStepDecreases(st, t, true);
    LeftUpdate(st.threads, t, ThreadStep(st, t, true).threads[t], st.producer, st.consumer);
  }

  // ---------------------------------------------------------------------------------------------
  // All calls return
  // ---------------------------------------------------------------------------------------------

  ghost predicate AllIdle(st: State) {
    forall t :: 0 <= t < |st.threads| ==> st.threads[t].Idle?
  }

  /** The schedule starts no call and fails no CAS spuriously. */
  ghost predicate OnlySteps(schedule: seq<Move>) {
    forall k :: 0 <= k < |schedule| ==> schedule[k].action.Go?
  }

  /** In a reachable state with a call under way some thread has a step that brings the calls nearer to their end. */
  lemma SomeStepDecreases(st: State) returns (m: Move)
    requires Reachable(st) && |st.slots| >= 2 && !AllIdle(st)
    ensures m.action.Go? && Reachable(Step(st, m))
    ensures Lower(Step(st, m), st)
  {
    var t: nat :| t < |st.threads| && !st.threads[t].Idle?;
    var u := SomeThreadCanMove(st, t);
    m := Move(u, Go);
    ReachableOk(st);
    assert ThreadOk(st, u);
    StepDecreases(st, u);
    RunReachable(st, [m]);
    assert Run(st, [m]) == Run(Step(st, m), []);
  }

  /**
   No reachable state is stuck, and none only goes round in circles: a schedule without new calls leads from it to
   a state in which every call has returned.
   */
  lemma {:induction false} AllCallsCanReturn(st: State) returns (schedule: seq<Move>)
    requires Reachable(st) && |st.slots| >= 2
    ensures OnlySteps(schedule) && AllIdle(Run(st, schedule))
    decreases AllCasesLeft(st.threads), AllStepsLeft(st.threads, st.producer, st.consumer)
  {
    if AllIdle(st) {
      schedule := [];
    } else {
      var m := SomeStepDecreases(st);
      var rest := AllCallsCanReturn(Step(st, m));
      schedule := [m] + rest;
      assert schedule[1..] == rest;
    }
  }
}
