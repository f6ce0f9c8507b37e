/** Whole calls of the hand-off protocol, whatever the other threads do between their steps. */
module RingCalls {
  import opened RingInvariant
  import opened RingMachine
  import opened RingSteps
  import opened RingTheorems

  /** The thread makes no move in the schedule. */
  ghost predicate Absent(t: nat, schedule: seq<Move>) {
    forall k :: 0 <= k < |schedule| ==> schedule[k].thread != t
  }

  /** The thread starts no call in the schedule. */
  ghost predicate StartsNothing(t: nat, schedule: seq<Move>) {
    forall k :: 0 <= k < |schedule| && schedule[k].thread == t ==>
      schedule[k].action.Go? || schedule[k].action.SpuriousFailure?
  }

  lemma OtherMoveKeeps(st: State, t: nat, m: Move)
    requires |st.slots| > 0 && t < |st.threads| && m.thread != t
    ensures Step(st, m).threads[t] == st.threads[t]
  {
  }

  lemma {:induction false} OthersKeep(st: State, t: nat, schedule: seq<Move>)
    requires |st.slots| > 0 && t < |st.threads| && Absent(t, schedule)
    ensures Run(st, schedule).threads[t] == st.threads[t]
    decreases |schedule|
  {
    if schedule != [] {
      OtherMoveKeeps(st, t, schedule[0]);
      OthersKeep(Step(st, schedule[0]), t, schedule[1..]);
    }
  }

  // ---------------------------------------------------------------------------------------------
  // Arguments
  // ---------------------------------------------------------------------------------------------

  /** In a push of `x`, or back from it. */
  predicate PushCall(pc: Pc, x: Item) {
    (IsPush(pc) && pc.item == x) || (pc.Idle? && (pc.last.Pushed? || pc.last.Full?) && pc.last.item == x)
  }

  lemma {:induction false} PushCallContinues(st: State, t: nat, x: Item, schedule: seq<Move>)
    requires |st.slots| > 0 && t < |st.threads| && PushCall(st.threads[t], x) && StartsNothing(t, schedule)
    ensures PushCall(Run(st, schedule).threads[t], x)
    decreases |schedule|
  {
    if schedule != [] {
      var m := schedule[0];
      if m.thread != t {
        OtherMoveKeeps(st, t, m);
      } else if IsPush(st.threads[t]) {
        PushStepKeepsItem(st, t, m.action.Go?);
      }
      assert PushCall(Step(st, m).threads[t], x);
      PushCallContinues(Step(st, m), t, x, schedule[1..]);
    }
  }

  /** A push returns, or has pushed under the sequence number it reports, the item it was called with. */
  lemma PushKeepsItsItem(st: State, t: nat, x: Item, schedule: seq<Move>)
    requires Reachable(st) && |st.slots| >= 2 && t < |st.threads| && st.threads[t].Idle? && StartsNothing(t, schedule)
    ensures var end := Run(Step(st, Move(t, StartPush(x))), schedule);
            var pc := end.threads[t];
            && PushCall(pc, x)
            && (pc.Idle? && pc.last.Pushed? ==> pc.last.at < |end.pushed| && end.pushed[pc.last.at] == x)
  {
    var called := Step(st, Move(t, StartPush(x)));
    PushCallContinues(called, t, x, schedule);
    RunReachable(st, [Move(t, StartPush(x))]);
    assert Run(st, [Move(t, StartPush(x))]) == Run(called, []);
    RunReachable(called, schedule);
    CallsReportTruthfully(Run(called, schedule), t);
  }

  lemma {:induction false} DrainCallContinues(st: State, t: nat, d: Drain, schedule: seq<Move>)
    requires |st.slots| > 0 && t < |st.threads| && SameDrain(d, st.threads[t]) && StartsNothing(t, schedule)
    ensures SameDrain(d, Run(st, schedule).threads[t])
    decreases |schedule|
  {
    if schedule != [] {
      var m := schedule[0];
      if m.thread != t {
        OtherMoveKeeps(st, t, m);
      } else if !st.threads[t].Idle? {
        DrainStepKeepsArguments(st, t, m.action.Go?);
      }
      assert SameDrain(d, Step(st, m).threads[t]);
      DrainCallContinues(Step(st, m), t, d, schedule[1..]);
    }
  }

  /** A drain keeps its mode, and returns a count that is its won CASes and at most the batch it was called with. */
  lemma DrainKeepsItsArguments(st: State, t: nat, helping: bool, batch: nat, schedule: seq<Move>)
    requires Reachable(st) && |st.slots| >= 2 && t < |st.threads| && st.threads[t].Idle? && StartsNothing(t, schedule)
    ensures var pc := Run(Step(st, Move(t, StartDrain(helping, batch))), schedule).threads[t];
            && SameDrain(Drain(helping, batch, 0, 0), pc)
            && (pc.Idle? ==> pc.last.drain.count == pc.last.drain.wins <= batch)
  {
    var called := Step(st, Move(t, StartDrain(helping, batch)));
    DrainCallContinues(called, t, Drain(helping, batch, 0, 0), schedule);
    RunReachable(st, [Move(t, StartDrain(helping, batch))]);
    assert Run(st, [Move(t, StartDrain(helping, batch))]) == Run(called, []);
    RunReachable(called, schedule);
    CallsReportTruthfully(Run(called, schedule), t);
  }

  // ---------------------------------------------------------------------------------------------
  // "Full"
  // ---------------------------------------------------------------------------------------------

  /** The items pushed along a schedule. */
  ghost function Claims(st: State, schedule: seq<Move>): nat
    requires Invariant(st)
    decreases |schedule|
  {
    if schedule == [] then 0
    else
      StepKeeps(st, schedule[0]);
      (if Linearizes(st, schedule[0]).Enqueue? then 1 else 0) + Claims(Step(st, schedule[0]), schedule[1..])
  }

  /** The items consumed along a schedule. */
  ghost function Wins(st: State, schedule: seq<Move>): nat
    requires Invariant(st)
    decreases |schedule|
  {
    if schedule == [] then 0
    else
      StepKeeps(st, schedule[0]);
      (if Linearizes(st, schedule[0]).Dequeue? then 1 else 0) + Wins(Step(st, schedule[0]), schedule[1..])
  }

  lemma MoveCounts(st: State, m: Move)
    requires Invariant(st)
    ensures Step(st, m).producer == st.producer + (if Linearizes(st, m).Enqueue? then 1 else 0)
    ensures Step(st, m).consumer == st.consumer + (if Linearizes(st, m).Dequeue? then 1 else 0)
  {
    if m.thread < |st.threads| { assert ThreadOk(st, m.thread); }
    StepShared(st, m);
  }

  lemma {:induction false} CountersCount(st: State, schedule: seq<Move>)
    requires Invariant(st)
    ensures Run(st, schedule).producer == st.producer + Claims(st, schedule)
    ensures Run(st, schedule).consumer == st.consumer + Wins(st, schedule)
    decreases |schedule|
  {
    if schedule != [] {
      StepKeeps(st, schedule[0]);
      MoveCounts(st, schedule[0]);
      CountersCount(Step(st, schedule[0]), schedule[1..]);
    }
  }

  /** The number of items claimed and not yet won. */
  function Length(st: State): int {
    st.producer - st.consumer
  }

  /** The state in which a push, having loaded the consumer counter in `st`, loads the producer counter. */
  function BetweenLoads(st: State, t: nat, between: seq<Move>): State
    requires |st.slots| > 0
  {
    Run(Step(st, Move(t, Go)), between)
  }

  /**
   Whatever happens between its two loads, a push answers "full" exactly if the items at the first load and those
   pushed since fill the ring. So a full ring is always answered "full", and the answer is given on a ring that
   is not full exactly if, besides, more was consumed in between than the overshoot.
   */
  lemma FullExactlyWhen(st: State, t: nat, between: seq<Move>)
    requires Reachable(st) && |st.slots| >= 2 && t < |st.threads| && st.threads[t].PushLoadConsumer?
    requires Absent(t, between)
    ensures Invariant(Step(st, Move(t, Go)))
    ensures var loaded := Step(st, Move(t, Go));
            var used, won := Length(st) + Claims(loaded, between), Wins(loaded, between);
            var mid := BetweenLoads(st, t, between);
            var answer := Step(mid, Move(t, Go)).threads[t];
            && Length(mid) == used - won
            && (if used >= |st.slots| then answer == Idle(Full(st.threads[t].item))
                else answer == PushCas(st.threads[t].item, mid.producer))
            && (Length(mid) == |st.slots| ==> answer.Idle?)
            && (answer.Idle? && Length(mid) < |st.slots| <==> |st.slots| <= used < |st.slots| + won)
  {
    ReachableOk(st);
    StepKeeps(st, Move(t, Go));
    var loaded := Step(st, Move(t, Go));
    CountersCount(loaded, between);
    OthersKeep(loaded, t, between);
  }

  // ---------------------------------------------------------------------------------------------
  // Waiting
  // ---------------------------------------------------------------------------------------------

  /** The consumer has won `c` and not yet released its slot. */
  predicate InHands(pc: Pc, c: nat) {
    IsHolding(pc) && pc.c == c
  }

  /** The consumer of the item one capacity in front of `p` holds the slot. */
  predicate PreviousInHands(st: State, p: nat)
    requires |st.takers| == st.consumer
  {
    && |st.slots| <= p < st.consumer + |st.slots|
    && st.takers[p - |st.slots|] < |st.threads|
    && InHands(st.threads[st.takers[p - |st.slots|]], p - |st.slots|)
  }

  lemma SpinningIsHeld(st: State, t: nat)
    requires Invariant(st) && t < |st.threads| && st.threads[t].PushWait? && Spinning(st, t)
    ensures PreviousInHands(st, st.threads[t].p)
  {
    assert ThreadOk(st, t);
    assert SlotOk(st, st.threads[t].p);
  }

  lemma HeldIsSpinning(st: State, t: nat)
    requires Invariant(st) && t < |st.threads| && st.threads[t].PushWait? && PreviousInHands(st, st.threads[t].p)
    ensures Spinning(st, t)
  {
    var p := st.threads[t].p;
    SameSlot(st, p - |st.slots|);
    assert ThreadOk(st, st.takers[p - |st.slots|]);
  }

  /** A push that has claimed its slot waits exactly while the consumer of the slot's previous item holds it. */
  lemma PushWaitsExactlyWhile(st: State, t: nat)
    requires Reachable(st) && |st.slots| >= 2 && t < |st.threads| && st.threads[t].PushWait?
    ensures |st.takers| == st.consumer
    ensures Spinning(st, t) <==> PreviousInHands(st, st.threads[t].p)
  {
    ReachableOk(st);
    if Spinning(st, t) { SpinningIsHeld(st, t); }
    if PreviousInHands(st, st.threads[t].p) { HeldIsSpinning(st, t); }
  }

  /** The schedule is one of steps of this thread alone. */
  ghost predicate OnlyStepsOf(t: nat, schedule: seq<Move>) {
    StartsNothing(t, schedule) && forall k :: 0 <= k < |schedule| ==> schedule[k].thread == t
  }

  /** However many steps it takes by itself, a waiting push stays where it is: pushing is not wait-free. */
  lemma {:induction false} WaitingPushIsStuck(st: State, t: nat, schedule: seq<Move>)
    requires |st.slots| > 0 && t < |st.threads| && st.threads[t].PushWait? && Spinning(st, t)
    requires OnlyStepsOf(t, schedule)
    ensures Run(st, schedule) == st
    decreases |schedule|
  {
    if schedule != [] {
      assert Step(st, schedule[0]) == st;
      WaitingPushIsStuck(st, t, schedule[1..]);
    }
  }

  /** A round of the claiming loop of a push whose weak CAS fails. */
  function FailedRound(t: nat): seq<Move> {
    [Move(t, Go), Move(t, Go), Move(t, SpuriousFailure)]
  }

  function FailedRounds(t: nat, n: nat): seq<Move> {
    if n == 0 then [] else FailedRound(t) + FailedRounds(t, n - 1)
  }

  lemma RunThree(st: State, a: Move, b: Move, c: Move)
    requires |st.slots| > 0
    ensures Run(st, [a, b, c]) == Step(Step(Step(st, a), b), c)
  {
    assert [a, b, c][1..] == [b, c] && [b, c][1..] == [c] && [c][1..] == [];
    assert Run(Step(Step(st, a), b), [c]) == Step(Step(Step(st, a), b), c);
    assert Run(Step(st, a), [b, c]) == Run(Step(Step(st, a), b), [c]);
  }

  lemma FailedRoundReturns(st: State, t: nat)
    requires |st.slots| > 0 && t < |st.threads| && st.threads[t].PushLoadConsumer?
    requires st.producer < st.consumer + |st.slots|
    ensures Run(st, FailedRound(t)) == st
  {
    var x := st.threads[t].item;
    var s1 := Become(st, t, PushLoadProducer(x, st.consumer));
    var s2 := Become(s1, t, PushCas(x, st.producer));
    assert s2.threads[t := PushLoadConsumer(x)] == st.threads;
    assert Step(st, Move(t, Go)) == s1 && Step(s1, Move(t, Go)) == s2 && Step(s2, Move(t, SpuriousFailure)) == st;
    RunThree(st, Move(t, Go), Move(t, Go), Move(t, SpuriousFailure));
  }

  /** Nor is the number of rounds a push takes to claim a slot bounded, even with nobody else moving. */
  lemma {:induction false} ClaimCanRetryForever(st: State, t: nat, n: nat)
    requires |st.slots| > 0 && t < |st.threads| && st.threads[t].PushLoadConsumer?
    requires st.producer < st.consumer + |st.slots|
    ensures Run(st, FailedRounds(t, n)) == st
  {
    if n > 0 {
      FailedRoundReturns(st, t);
      RunAppend(st, FailedRound(t), FailedRounds(t, n - 1));
      ClaimCanRetryForever(st, t, n - 1);
    }
  }

  /** A step of thread `t`, its weak CAS failing spuriously or not. */
  function Own(t: nat, casMayWin: bool): Move {
    Move(t, if casMayWin then Go else SpuriousFailure)
  }

  /** The consumer waits for, or is about to claim, a slot that a helper has claimed. */
  ghost predicate Snatched(st: State, t: nat)
    requires t < |st.threads|
  {
    var pc := st.threads[t];
    (pc.DrainWait? || pc.DrainRecheck? || pc.DrainCas?) && !pc.drain.helping && pc.c < st.consumer
  }

  lemma SnatchedStep(st: State, t: nat, casMayWin: bool)
    requires |st.slots| > 0 && t < |st.threads| && Snatched(st, t)
    ensures Step(st, Own(t, casMayWin)).consumer == st.consumer
    ensures var pc, next := st.threads[t], Step(st, Own(t, casMayWin)).threads[t];
            if pc.DrainWait? then (next.DrainRecheck? || next.DrainCas?) && next.drain == pc.drain && next.c == pc.c
            else next == DrainLoadConsumer(pc.drain)
  {
  }

  /**
   A consumer whose slot was snatched leaves its wait loop within two of its own steps, whatever the other threads
   do before each of them, and whether or not its CAS fails spuriously.
   */
  lemma SnatchedDrainLeaves(st: State, t: nat, a: seq<Move>, first: bool, b: seq<Move>, second: bool)
    requires Reachable(st) && |st.slots| >= 2 && t < |st.threads| && Absent(t, a) && Absent(t, b)
    requires st.threads[t].DrainWait? && !st.threads[t].drain.helping && st.consumer != st.threads[t].c
    ensures var middle := Run(Step(Run(st, a), Own(t, first)), b);
            Step(middle, Own(t, second)).threads[t] == DrainLoadConsumer(st.threads[t].drain)
  {
    ReachableOk(st);
    assert ThreadOk(st, t);
    var one := Run(st, a);
    RunKeeps(st, a);
    OthersKeep(st, t, a);
    CountersGrow(st, a);
    SnatchedStep(one, t, first);
    var two := Step(one, Own(t, first));
    StepKeeps(one, Own(t, first));
    OthersKeep(two, t, b);
    CountersGrow(two, b);
    SnatchedStep(Run(two, b), t, second);
  }
}
