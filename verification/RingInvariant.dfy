/** Every step of every thread, and so every run of the hand-off protocol, keeps the invariant. */
module RingInvariant {
  import opened Wrappers
  import opened RingMachine
  import opened RingSteps

  lemma PushStepKeeps(st: State, t: nat, casMayWin: bool)
    requires Invariant(st) && t < |st.threads| && IsPush(st.threads[t])
    ensures Invariant(ThreadStep(st, t, casMayWin))
  {
    assert ThreadOk(st, t);
    match st.threads[t]
    case PushLoadConsumer(item) => LocalStepKeeps(st, t, PushLoadProducer(item, st.consumer));
    case PushLoadProducer(item, c) =>
      LocalStepKeeps(st, t, if st.producer >= c + |st.slots| then Idle(Full(item)) else PushCas(item, st.producer));
    case PushCas(item, p) =>
      if casMayWin && st.producer == p { ClaimKeeps(st, t); } else { LocalStepKeeps(st, t, PushLoadConsumer(item)); }
    case PushWait(_, p) => if At(st, p).sequence == p { ReadyKeeps(st, t); }
    case PushWrite(_, _) => WriteKeeps(st, t);
    case PushPublish(_, _) => PublishKeeps(st, t);
  }

  lemma LookingStepKeeps(st: State, t: nat, casMayWin: bool)
    requires Invariant(st) && t < |st.threads| && IsLooking(st.threads[t])
    ensures Invariant(ThreadStep(st, t, casMayWin))
  {
    assert ThreadOk(st, t);
    match st.threads[t]
    case DrainLoadConsumer(d) => LocalStepKeeps(st, t, DrainLoadProducer(d, st.consumer));
    case DrainLoadProducer(d, c) =>
      LocalStepKeeps(st, t, if c >= st.producer then Idle(Drained(d)) else DrainWait(d, c));
    case DrainWait(d, c) =>
      LocalStepKeeps(st, t, if At(st, c).sequence == c + 1 then DrainCas(d, c) else GiveUp(d, DrainRecheck(d, c)));
    case DrainRecheck(d, c) =>
      LocalStepKeeps(st, t, if st.consumer != c then DrainLoadConsumer(d) else DrainWait(d, c));
  }

  lemma DrainCasKeeps(st: State, t: nat, casMayWin: bool)
    requires Invariant(st) && t < |st.threads| && st.threads[t].DrainCas?
    ensures Invariant(ThreadStep(st, t, casMayWin))
  {
    assert ThreadOk(st, t);
    var d := st.threads[t].drain;
    if casMayWin && st.consumer == st.threads[t].c {
      WinKeeps(st, t);
    } else {
      LocalStepKeeps(st, t, GiveUp(d, DrainLoadConsumer(d)));
    }
  }

  lemma DrainStepKeeps(st: State, t: nat, casMayWin: bool)
    requires Invariant(st) && t < |st.threads| && !IsPush(st.threads[t])
    ensures Invariant(ThreadStep(st, t, casMayWin))
  {
    match st.threads[t]
    case Idle(_) =>
    case DrainCas(_, _) => DrainCasKeeps(st, t, casMayWin);
    case DrainTake(_, _) => TakeKeeps(st, t);
    case DrainCallback(_, _, _) => DeliverKeeps(st, t);
    case DrainRelease(_, _) => ReleaseKeeps(st, t);
    case _ => LookingStepKeeps(st, t, casMayWin);
  }

  lemma ThreadStepKeepsInvariant(st: State, t: nat, casMayWin: bool)
    requires Invariant(st) && t < |st.threads|
    ensures Invariant(ThreadStep(st, t, casMayWin))
  {
    if IsPush(st.threads[t]) { PushStepKeeps(st, t, casMayWin); } else { DrainStepKeeps(st, t, casMayWin); }
  }

  lemma StartPushKeeps(st: State, t: nat, x: Item)
    requires Invariant(st)
    ensures Invariant(Step(st, Move(t, StartPush(x))))
  {
    if t < |st.threads| && st.threads[t].Idle? { LocalStepKeeps(st, t, PushLoadConsumer(x)); }
  }

  lemma StartDrainKeeps(st: State, t: nat, helping: bool, batch: nat)
    requires Invariant(st)
    ensures Invariant(Step(st, Move(t, StartDrain(helping, batch))))
  {
    if t < |st.threads| && st.threads[t].Idle? { LocalStepKeeps(st, t, NextRound(Drain(helping, batch, 0, 0))); }
  }

  /** Every move of every thread keeps the invariant. */
  lemma StepKeeps(st: State, m: Move)
    requires Invariant(st)
    ensures Invariant(Step(st, m))
  {
    if m.thread < |st.threads| {
      match m.action
      case Go => ThreadStepKeepsInvariant(st, m.thread, true);
      case SpuriousFailure => ThreadStepKeepsInvariant(st, m.thread, false);
      case StartPush(x) => StartPushKeeps(st, m.thread, x);
      case StartDrain(helping, batch) => StartDrainKeeps(st, m.thread, helping, batch);
    }
  }

  lemma InitOk(capacity: nat, threads: nat)
    requires capacity >= 2
    ensures Invariant(Init(capacity, threads))
  {
    var st := Init(capacity, threads);
    forall s: nat | InWindow(st, s) ensures SlotOk(st, s) {
      assert At(st, s) == Slot(s, None);
    }
  }

  /** In every state of every interleaving of any number of threads the invariant holds. */
  lemma {:induction false} RunKeeps(st: State, schedule: seq<Move>)
    requires Invariant(st)
    ensures Invariant(Run(st, schedule))
    decreases |schedule|
  {
    if schedule != [] {
      StepKeeps(st, schedule[0]);
      RunKeeps(Step(st, schedule[0]), schedule[1..]);
    }
  }
}
