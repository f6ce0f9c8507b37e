/**
 What a lost CAS tells about the other threads: the retry loops of the hand-off protocol under contention
 (core/src/buffer/ring_buffer.rs:128-257).
 */
module RingContention {
  import opened RingCalls
  import opened RingInvariant
  import opened RingMachine
  import opened RingTheorems

  // ---------------------------------------------------------------------------------------------
  // One CAS
  // ---------------------------------------------------------------------------------------------

  lemma PushCasEnds(st: State, t: nat, casMayWin: bool)
    requires |st.slots| > 0 && t < |st.threads| && st.threads[t].PushCas?
    ensures var x, p := st.threads[t].item, st.threads[t].p;
            Step(st, Own(t, casMayWin)) ==
              if casMayWin && p == st.producer then Claim(st, t, x, p) else Become(st, t, PushLoadConsumer(x))
  {
  }

  lemma DrainCasEnds(st: State, t: nat, casMayWin: bool)
    requires |st.slots| > 0 && t < |st.threads| && st.threads[t].DrainCas?
    ensures var d, c := st.threads[t].drain, st.threads[t].c;
            Step(st, Own(t, casMayWin)) ==
              if casMayWin && c == st.consumer then Win(st, t, d, c) else Become(st, t, GiveUp(d, DrainLoadConsumer(d)))
  {
  }

  /**
   Whatever happens before it, the CAS of a push wins exactly if it does not fail spuriously, the value it compares
   with was still current at the start, and nobody has claimed a slot since. If it loses, nothing else changes.
   */
  lemma PushCasWinsExactlyWhen(st: State, t: nat, between: seq<Move>, casMayWin: bool)
    requires Reachable(st) && |st.slots| >= 2 && t < |st.threads| && st.threads[t].PushCas? && Absent(t, between)
    ensures Invariant(st)
    ensures var x, p := st.threads[t].item, st.threads[t].p;
            var mid := Run(st, between);
            var end := Step(mid, Own(t, casMayWin));
            if casMayWin && p == st.producer && Claims(st, between) == 0 then
              end.threads[t] == PushWait(x, p) && end.pushed == mid.pushed + [x] && end.pushers == mid.pushers + [t]
            else
              end == Become(mid, t, PushLoadConsumer(x))
  {
    ReachableOk(st);
    assert ThreadOk(st, t);
    CountersCount(st, between);
    OthersKeep(st, t, between);
    PushCasEnds(Run(st, between), t, casMayWin);
  }

  /** The same for the CAS of a drain, with the slots won since; a helper that loses returns. */
  lemma DrainCasWinsExactlyWhen(st: State, t: nat, between: seq<Move>, casMayWin: bool)
    requires Reachable(st) && |st.slots| >= 2 && t < |st.threads| && st.threads[t].DrainCas? && Absent(t, between)
    ensures Invariant(st)
    ensures var d, c := st.threads[t].drain, st.threads[t].c;
            var mid := Run(st, between);
            var end := Step(mid, Own(t, casMayWin));
            if casMayWin && c == st.consumer && Wins(st, between) == 0 then
              end.threads[t] == DrainTake(d.(wins := d.wins + 1), c) && end.takers == mid.takers + [t]
            else
              end == Become(mid, t, if d.helping then Idle(Drained(d)) else DrainLoadConsumer(d))
  {
    ReachableOk(st);
    assert ThreadOk(st, t);
    CountersCount(st, between);
    OthersKeep(st, t, between);
    DrainCasEnds(Run(st, between), t, casMayWin);
  }

  // ---------------------------------------------------------------------------------------------
  // All CASes of a run
  // ---------------------------------------------------------------------------------------------

  /** The two counters threads compete for. */
  datatype Side = Producers | Consumers

  function Counter(st: State, side: Side): nat {
    if side.Producers? then st.producer else st.consumer
  }

  /** The thread is about to compare and swap this counter. */
  predicate AtCas(pc: Pc, side: Side) {
    if side.Producers? then pc.PushCas? else pc.DrainCas?
  }

  /** The thread makes its CAS. */
  predicate Attempts(st: State, t: nat, side: Side, m: Move) {
    m.thread == t < |st.threads| && AtCas(st.threads[t], side) && (m.action.Go? || m.action.SpuriousFailure?)
  }

  /** And loses it. */
  predicate Loses(st: State, t: nat, side: Side, m: Move)
    requires |st.slots| > 0
  {
    Attempts(st, t, side, m) && Counter(Step(st, m), side) == Counter(st, side)
  }

  predicate FailsSpuriously(st: State, t: nat, side: Side, m: Move) {
    Attempts(st, t, side, m) && m.action.SpuriousFailure?
  }

  /** Another thread pushes, or another consumes, an item. */
  predicate OtherWins(st: State, t: nat, side: Side, m: Move)
    requires st.consumer <= st.producer == |st.pushed|
  {
    m.thread != t && (if side.Producers? then Linearizes(st, m).Enqueue? else Linearizes(st, m).Dequeue?)
  }

  /** The CASes a thread loses along a schedule. */
  function Losses(st: State, t: nat, side: Side, schedule: seq<Move>): nat
    requires |st.slots| > 0
    decreases |schedule|
  {
    if schedule == [] then 0
    else (if Loses(st, t, side, schedule[0]) then 1 else 0) + Losses(Step(st, schedule[0]), t, side, schedule[1..])
  }

  /** Those of them that fail spuriously. */
  function SpuriousFailures(st: State, t: nat, side: Side, schedule: seq<Move>): nat
    requires |st.slots| > 0
    decreases |schedule|
  {
    if schedule == [] then 0
    else
      (if FailsSpuriously(st, t, side, schedule[0]) then 1 else 0)
      + SpuriousFailures(Step(st, schedule[0]), t, side, schedule[1..])
  }

  /** The items pushed, or consumed, by other threads along a schedule. */
  ghost function OthersWins(st: State, t: nat, side: Side, schedule: seq<Move>): nat
    requires Invariant(st)
    decreases |schedule|
  {
    if schedule == [] then 0
    else
      StepKeeps(st, schedule[0]);
      (if OtherWins(st, t, side, schedule[0]) then 1 else 0) + OthersWins(Step(st, schedule[0]), t, side, schedule[1..])
  }

  /** One if the thread holds a loaded value the counter has moved past, with which its next CAS must fail. */
  function Stale(st: State, t: nat, side: Side): nat
    requires t < |st.threads|
  {
    var pc := st.threads[t];
    if side.Producers? then
      if pc.PushCas? && pc.p != st.producer then 1 else 0
    else
      var loaded := pc.DrainLoadProducer? || pc.DrainWait? || pc.DrainRecheck? || pc.DrainCas?;
      if loaded && pc.c != st.consumer then 1 else 0
  }

  /** The inequality of `MovePays` for a step of the thread itself, which no other thread pays for. */
  predicate Pays(st: State, t: nat, side: Side, casMayWin: bool)
    requires |st.slots| > 0 && t < |st.threads|
  {
    var m := Own(t, casMayWin);
    (if Loses(st, t, side, m) then 1 else 0) + Stale(Step(st, m), t, side)
    <= (if FailsSpuriously(st, t, side, m) then 1 else 0) + Stale(st, t, side)
  }

  lemma PushCasPays(st: State, t: nat, casMayWin: bool)
    requires |st.slots| > 0 && t < |st.threads| && st.threads[t].PushCas?
    ensures Pays(st, t, Producers, casMayWin)
  {
  }

  lemma PushStepPays(st: State, t: nat, casMayWin: bool)
    requires |st.slots| > 0 && t < |st.threads| && IsPush(st.threads[t]) && !st.threads[t].PushCas?
    ensures Pays(st, t, Producers, casMayWin)
  {
  }

  lemma DrainLoadPays(st: State, t: nat, casMayWin: bool)
    requires |st.slots| > 0 && t < |st.threads| && IsLooking(st.threads[t])
    ensures Pays(st, t, Consumers, casMayWin)
  {
  }

  lemma DrainCasPays(st: State, t: nat, casMayWin: bool)
    requires |st.slots| > 0 && t < |st.threads| && st.threads[t].DrainCas?
    ensures Pays(st, t, Consumers, casMayWin)
  {
  }

  lemma DrainHoldPays(st: State, t: nat, casMayWin: bool)
    requires |st.slots| > 0 && t < |st.threads| && IsHolding(st.threads[t])
    ensures Pays(st, t, Consumers, casMayWin)
  {
  }

  lemma OwnMovePays(st: State, t: nat, side: Side, casMayWin: bool)
    requires |st.slots| > 0 && t < |st.threads|
    ensures Pays(st, t, side, casMayWin)
  {
    var pc := st.threads[t];
    if IsPush(pc) {
      PushStepKeepsItem(st, t, casMayWin);
      if side.Producers? {
        if pc.PushCas? { PushCasPays(st, t, casMayWin); } else { PushStepPays(st, t, casMayWin); }
      }
    } else if !pc.Idle? {
      DrainStepKeepsArguments(st, t, casMayWin);
      if side.Consumers? {
        if pc.DrainCas? { DrainCasPays(st, t, casMayWin); }
        else if IsHolding(pc) { DrainHoldPays(st, t, casMayWin); }
        else { DrainLoadPays(st, t, casMayWin); }
      }
    }
  }

  /** A lost CAS, or a value that becomes stale, is paid for: by a spurious failure, a stale value or another's win. */
  lemma MovePays(st: State, t: nat, side: Side, m: Move)
    requires Invariant(st) && t < |st.threads|
    ensures (if Loses(st, t, side, m) then 1 else 0) + Stale(Step(st, m), t, side)
         <= (if FailsSpuriously(st, t, side, m) then 1 else 0) + (if OtherWins(st, t, side, m) then 1 else 0)
            + Stale(st, t, side)
  {
    if m.thread != t {
      MoveCounts(st, m);
      OtherMoveKeeps(st, t, m);
    } else if m.action.Go? || m.action.SpuriousFailure? {
      OwnMovePays(st, t, side, m.action.Go?);
    }
  }

  lemma {:induction false} RunPays(st: State, t: nat, side: Side, schedule: seq<Move>)
    requires Invariant(st) && t < |st.threads|
    ensures Losses(st, t, side, schedule) + Stale(Run(st, schedule), t, side)
         <= SpuriousFailures(st, t, side, schedule) + OthersWins(st, t, side, schedule) + Stale(st, t, side)
    decreases |schedule|
  {
    if schedule != [] {
      MovePays(st, t, side, schedule[0]);
      StepKeeps(st, schedule[0]);
      RunPays(Step(st, schedule[0]), t, side, schedule[1..]);
    }
  }

  /**
   Lock-freedom: over any schedule and any number of its calls, a thread loses at most as many CASes as fail
   spuriously, as other threads win on the same counter, and one more if the value it starts with is already stale.
   */
  lemma LossesAreOthersWins(st: State, t: nat, side: Side, schedule: seq<Move>)
    requires Reachable(st) && |st.slots| >= 2 && t < |st.threads|
    ensures Invariant(st)
    ensures Losses(st, t, side, schedule)
         <= SpuriousFailures(st, t, side, schedule) + OthersWins(st, t, side, schedule) + Stale(st, t, side)
  {
    ReachableOk(st);
    RunPays(st, t, side, schedule);
  }

  // ---------------------------------------------------------------------------------------------
  // The claiming loop
  // ---------------------------------------------------------------------------------------------

  /** The push has neither claimed a slot nor returned. */
  predicate Claiming(pc: Pc) {
    pc.PushLoadConsumer? || pc.PushLoadProducer? || pc.PushCas?
  }

  /** The steps into the current round. */
  function Phase(pc: Pc): nat
    requires Claiming(pc)
  {
    if pc.PushLoadConsumer? then 0 else if pc.PushLoadProducer? then 1 else 2
  }

  function OwnSteps(t: nat, schedule: seq<Move>): nat {
    if schedule == [] then 0 else (if schedule[0].thread == t then 1 else 0) + OwnSteps(t, schedule[1..])
  }

  /** A push past its claim, or back from it, claims no more. */
  lemma PastClaiming(st: State, t: nat, casMayWin: bool)
    requires |st.slots| > 0 && t < |st.threads| && !Claiming(st.threads[t])
    ensures !Claiming(ThreadStep(st, t, casMayWin).threads[t])
  {
    var pc := st.threads[t];
    if !IsPush(pc) && !pc.Idle? { DrainStepKeepsArguments(st, t, casMayWin); }
  }

  lemma {:induction false} NeverClaimingAgain(st: State, t: nat, schedule: seq<Move>)
    requires |st.slots| > 0 && t < |st.threads| && !Claiming(st.threads[t]) && StartsNothing(t, schedule)
    ensures !Claiming(Run(st, schedule).threads[t])
    decreases |schedule|
  {
    if schedule != [] {
      var m := schedule[0];
      if m.thread == t {
        PastClaiming(st, t, m.action.Go?);
      } else {
        OtherMoveKeeps(st, t, m);
      }
      NeverClaimingAgain(Step(st, m), t, schedule[1..]);
    }
  }

  /** A step of a claiming push ends the claiming, goes on to the next phase, or loses the CAS. */
  lemma ClaimingStep(st: State, t: nat, casMayWin: bool)
    requires |st.slots| > 0 && t < |st.threads| && Claiming(st.threads[t])
    ensures var next := ThreadStep(st, t, casMayWin).threads[t];
            Claiming(next) ==>
              if Loses(st, t, Producers, Own(t, casMayWin)) then Phase(st.threads[t]) == 2 && Phase(next) == 0
              else Phase(next) == Phase(st.threads[t]) + 1
  {
  }

  lemma ClaimingMove(st: State, t: nat, m: Move)
    requires |st.slots| > 0 && t < |st.threads| && Claiming(st.threads[t])
    requires m.thread == t ==> m.action.Go? || m.action.SpuriousFailure?
    ensures var next := Step(st, m).threads[t];
            Claiming(next) ==>
              Phase(st.threads[t]) + (if m.thread == t then 1 else 0)
              == 3 * (if Loses(st, t, Producers, m) then 1 else 0) + Phase(next)
  {
    if m.thread == t {
      ClaimingStep(st, t, m.action.Go?);
    } else {
      OtherMoveKeeps(st, t, m);
    }
  }

  /** Each round of the claiming loop but the current one is three steps and one lost CAS. */
  lemma {:induction false} RoundsAreLosses(st: State, t: nat, schedule: seq<Move>)
    requires |st.slots| > 0 && t < |st.threads| && Claiming(st.threads[t]) && StartsNothing(t, schedule)
    requires Claiming(Run(st, schedule).threads[t])
    ensures Phase(st.threads[t]) + OwnSteps(t, schedule)
         == 3 * Losses(st, t, Producers, schedule) + Phase(Run(st, schedule).threads[t])
    decreases |schedule|
  {
    if schedule != [] {
      var m, rest := schedule[0], schedule[1..];
      if !Claiming(Step(st, m).threads[t]) { NeverClaimingAgain(Step(st, m), t, rest); }
      ClaimingMove(st, t, m);
      RoundsAreLosses(Step(st, m), t, rest);
    }
  }

  /**
   A push that is still claiming after some of its own steps owes every completed round to a spurious failure or to
   an item another thread has pushed meanwhile: the loop is lock-free.
   */
  lemma ClaimingIsLockFree(st: State, t: nat, schedule: seq<Move>)
    requires Reachable(st) && |st.slots| >= 2 && t < |st.threads| && st.threads[t].PushLoadConsumer?
    requires StartsNothing(t, schedule) && Claiming(Run(st, schedule).threads[t])
    ensures Invariant(st)
    ensures OwnSteps(t, schedule)
         <= 3 * (SpuriousFailures(st, t, Producers, schedule) + OthersWins(st, t, Producers, schedule)) + 2
  {
    LossesAreOthersWins(st, t, Producers, schedule);
    RoundsAreLosses(st, t, schedule);
  }
}
