/**
 The epoch counter under concurrent reloads (core/src/config/hot_reload.rs:81-88, 276-283): beginning a reload loads
 the counter and then increments it, two accesses between which other threads may take epochs.
 */
module EpochMachine {
  import opened HotReload
  import opened Wrappers

  /** A thread in `begin_config_reload` has loaded the counter; before and after, it has its last ticket, if any. */
  datatype Pc = Resting(last: Option<Ticket>) | Loaded(previous: nat)

  /** `begun` lists the tickets in order of their increments; no step reads it. */
  datatype State = State(epoch: nat, threads: seq<Pc>, begun: seq<Ticket>)

  /** `Take` is any other operation that takes an epoch, such as saving a plugin's state. */
  datatype Action = Load | Increment | Take

  datatype Move = Move(thread: nat, action: Action)

  function Init(threads: nat): State {
    State(1, seq(threads, _ => Resting(None)), [])
  }

  /** The move increments the counter. */
  predicate TakesEpoch(st: State, m: Move) {
    m.thread < |st.threads| &&
    match m.action
    case Load => false
    case Increment => st.threads[m.thread].Loaded?
    case Take => st.threads[m.thread].Resting?
  }

  /** A move that is not possible leaves the state alone. */
  function Step(st: State, m: Move): (end: State)
    ensures |end.threads| == |st.threads|
  {
    if m.thread >= |st.threads| then st else
    match m.action
    case Load => if st.threads[m.thread].Resting? then st.(threads := st.threads[m.thread := Loaded(st.epoch)]) else st
    case Increment =>
      if st.threads[m.thread].Loaded? then
        var ticket := Ticket(st.epoch, st.threads[m.thread].previous);
        State(st.epoch + 1, st.threads[m.thread := Resting(Some(ticket))], st.begun + [ticket])
      else st
    case Take => if st.threads[m.thread].Resting? then st.(epoch := st.epoch + 1) else st
  }

  function Run(st: State, schedule: seq<Move>): (end: State)
    ensures |end.threads| == |st.threads|
    decreases |schedule|
  {
    if schedule == [] then st else Run(Step(st, schedule[0]), schedule[1..])
  }

  /** The number of epochs taken along a schedule. */
  function EpochsTaken(st: State, schedule: seq<Move>): nat
    decreases |schedule|
  {
    if schedule == [] then 0
    else (if TakesEpoch(st, schedule[0]) then 1 else 0) + EpochsTaken(Step(st, schedule[0]), schedule[1..])
  }

  ghost predicate Absent(t: nat, schedule: seq<Move>) {
    forall k :: 0 <= k < |schedule| ==> schedule[k].thread != t
  }

  /** Tickets have increasing epochs below the counter, none before the epoch it loaded. */
  ghost predicate Ordered(st: State) {
    && (forall j, k :: 0 <= j < k < |st.begun| ==> st.begun[j].epoch < st.begun[k].epoch)
    && (forall k :: 0 <= k < |st.begun| ==> st.begun[k].previousEpoch <= st.begun[k].epoch < st.epoch)
    && (forall t :: 0 <= t < |st.threads| && st.threads[t].Loaded? ==> st.threads[t].previous <= st.epoch)
  }
}
