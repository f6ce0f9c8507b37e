/** What the epochs of reload tickets are worth under concurrency (core/src/config/hot_reload.rs:276-283). */
module EpochTheorems {
  import opened EpochMachine
  import opened HotReload
  import opened Wrappers

  lemma {:induction false} RunCounts(st: State, t: nat, schedule: seq<Move>)
    requires t < |st.threads| && Absent(t, schedule)
    ensures Run(st, schedule).epoch == st.epoch + EpochsTaken(st, schedule)
    ensures Run(st, schedule).threads[t] == st.threads[t]
    decreases |schedule|
  {
    if schedule != [] { RunCounts(Step(st, schedule[0]), t, schedule[1..]); }
  }

  lemma {:induction false} RunOrdered(st: State, schedule: seq<Move>)
    requires Ordered(st)
    ensures Ordered(Run(st, schedule))
    decreases |schedule|
  {
    if schedule != [] { RunOrdered(Step(st, schedule[0]), schedule[1..]); }
  }

  /** Ticket epochs strictly increase, whatever the interleaving of reloads and other operations. */
  lemma TicketEpochsIncrease(threads: nat, schedule: seq<Move>)
    ensures Ordered(Run(Init(threads), schedule))
  {
    RunOrdered(Init(threads), schedule);
  }

  /**
   A ticket's own epoch is as far behind its `previous_epoch` as epochs were taken between the two accesses, so the
   two are equal exactly if none was. And `previous_epoch` is no epoch of a reload that had begun before.
   */
  lemma PreviousEpochLagsByEpochsTaken(threads: nat, past: seq<Move>, t: nat, between: seq<Move>)
    requires t < threads && Run(Init(threads), past).threads[t].Resting? && Absent(t, between)
    ensures var st := Run(Init(threads), past);
            var loaded := Step(st, Move(t, Load));
            var end := Step(Run(loaded, between), Move(t, Increment));
            var taken := EpochsTaken(loaded, between);
            && end.threads[t].Resting? && end.threads[t].last.Some?
            && var ticket := end.threads[t].last.value;
               && ticket.previousEpoch == st.epoch == ticket.epoch - taken
               && (ticket.previousEpoch == ticket.epoch <==> taken == 0)
               && (forall k :: 0 <= k < |st.begun| ==> st.begun[k].epoch < ticket.previousEpoch)
  {
    TicketEpochsIncrease(threads, past);
    RunCounts(Step(Run(Init(threads), past), Move(t, Load)), t, between);
  }

  /** With one epoch taken between the two accesses the first ticket has epoch 2 and `previous_epoch` 1. */
  lemma OneEpochTakenBetween() returns (end: State)
    ensures end == Run(Init(2), [Move(0, Load), Move(1, Take), Move(0, Increment)])
    ensures end.threads[0] == Resting(Some(Ticket(2, 1)))
  {
    var s1 := Step(Init(2), Move(0, Load));
    var s2 := Step(s1, Move(1, Take));
    end := Step(s2, Move(0, Increment));
    var schedule := [Move(0, Load), Move(1, Take), Move(0, Increment)];
    assert schedule[1..] == [Move(1, Take), Move(0, Increment)] && schedule[1..][1..] == [Move(0, Increment)];
    assert Run(s2, [Move(0, Increment)]) == end;
    assert Run(s1, schedule[1..]) == end;
  }
}
