/**
 An observer of the log path: what each `dologger_log` call asked for and did, the level of each allocated record, and
 the records that entered and left the two queues (core/src/ffi.rs:209-334, core/src/lib.rs:172-237). It reads the
 states of `LogPath` and changes none.
 */
module LogTrace {
  import opened LogPath
  import opened Wrappers

  /** A record in or behind a queue, with its level. */
  datatype Entry = Entry(i: nat, level: nat)

  /**
   A call: its parameters, its push attempts, the ring length its fill check saw, whether it then went on to help, and
   the records it helped away.
   */
  datatype Progress = Progress(params: Params, pushes: nat, seen: Option<nat>, offered: bool, helped: nat)

  function NewCall(params: Params): Progress {
    Progress(params, 0, None, false, 0)
  }

  datatype Call = Call(progress: Progress, exit: Exit)

  /** The present call of each thread, the level of each record, the calls returned, the traffic of the queues. */
  datatype Trace = Trace(
    progress: seq<Progress>,
    levels: map<nat, nat>,
    calls: seq<Call>,
    ringIn: seq<Entry>,
    ringOut: seq<Entry>,
    auditIn: seq<Entry>,
    auditOut: seq<Entry>)

  const NO_LEVEL: nat := 7

  function NoTrace(threads: nat): Trace {
    Trace(seq(threads, _ => NewCall(Params(0, Null, Null))), map[], [], [], [], [], [])
  }

  function LevelOf(levels: map<nat, nat>, i: nat): nat {
    if i in levels then levels[i] else NO_LEVEL
  }

  /** The level a record gets: an unknown number counts as Info. */
  function RecordLevel(level: nat): nat {
    if level <= 6 then level else 2
  }

  function With(trace: Trace, t: nat, progress: Progress): Trace
    requires t < |trace.progress|
  {
    trace.(progress := trace.progress[t := progress])
  }

  function Returned(trace: Trace, t: nat, exit: Exit): Trace
    requires t < |trace.progress|
  {
    trace.(calls := trace.calls + [Call(trace.progress[t], exit)])
  }

  function EnterRing(trace: Trace, i: nat): Trace {
    trace.(ringIn := trace.ringIn + [Entry(i, LevelOf(trace.levels, i))])
  }

  function LeaveRing(trace: Trace, i: nat): Trace {
    trace.(ringOut := trace.ringOut + [Entry(i, LevelOf(trace.levels, i))])
  }

  function EnterAudit(trace: Trace, i: nat): Trace {
    trace.(auditIn := trace.auditIn + [Entry(i, LevelOf(trace.levels, i))])
  }

  function LeaveAudit(trace: Trace, i: nat): Trace {
    trace.(auditOut := trace.auditOut + [Entry(i, LevelOf(trace.levels, i))])
  }

  /** A push attempt of record `i`, after which the thread is at `next`. */
  function ObservePush(trace: Trace, t: nat, i: nat, next: Pc): Trace
    requires t < |trace.progress|
  {
    var p := trace.progress[t];
    var tried := With(trace, t, p.(pushes := p.pushes + 1));
    if next == Idle(Success) then Returned(EnterRing(tried, i), t, Success) else tried
  }

  /** What one step of thread `t` from `st` to `next` adds. */
  function ObserveStep(st: State, t: nat, next: Pc, trace: Trace): Trace
    requires t < |st.threads| == |trace.progress|
  {
    var p := trace.progress[t];
    match st.threads[t]
    case Idle(_) => trace
    case Allocating(params) =>
      if next.Idle? then Returned(trace, t, next.last)
      else if st.free == [] then trace
      else trace.(levels := trace.levels[st.free[0] := RecordLevel(params.level)])
    case Auditing(i) => if next == Idle(Success) then Returned(EnterAudit(trace, i), t, Success) else trace
    case Pushing(i) => ObservePush(trace, t, i, next)
    case Retrying(i) => ObservePush(trace, t, i, next)
    case CheckingFill(_) => With(trace, t, p.(seen := Some(|st.ring|), offered := next.Helping?))
    case Helping(_, _, _) =>
      if next.HelperFreeing? then LeaveRing(With(trace, t, p.(helped := p.helped + 1)), next.j) else trace
    case HelperFreeing(_, _, _, _) => trace
    case Returning(_, _) => if next.Idle? then Returned(trace, t, next.last) else trace
    case Draining(_) => if next.Freeing? then LeaveRing(trace, next.j) else trace
    case Freeing(_, _) => trace
    case AuditDraining(_) => if next.AuditFreeing? then LeaveAudit(trace, next.j) else trace
    case AuditFreeing(_, _) => trace
  }

  function Observe(st: State, m: Move, trace: Trace): (after: Trace)
    requires |st.threads| == |st.ledgers| == |trace.progress|
    ensures |after.progress| == |trace.progress|
  {
    if m.thread >= |st.threads| then trace else
    match m.action
    case Log(params) =>
      if st.threads[m.thread].Idle? then With(trace, m.thread, NewCall(params)) else trace
    case LogNull => trace
    case Consume(_) => trace
    case ConsumeAudit(_) => trace
    case AuditFails => trace
    case _ => ObserveStep(st, m.thread, Step(st, m).threads[m.thread], trace)
  }

  /** What the whole schedule adds. */
  function Watch(st: State, schedule: seq<Move>, trace: Trace): (after: Trace)
    requires |st.threads| == |st.ledgers| == |trace.progress|
    ensures |after.progress| == |trace.progress|
    decreases |schedule|
  {
    if schedule == [] then trace else Watch(Step(st, schedule[0]), schedule[1..], Observe(st, schedule[0], trace))
  }

  // ---------------------------------------------------------------------------------------------
  // The invariant
  // ---------------------------------------------------------------------------------------------

  predicate BadText(p: Params) {
    p.message == Malformed || p.sourceFile == Malformed
  }

  predicate IsAudit(p: Params) {
    p.level == 6
  }

  /** The exits a call with these parameters can have. */
  predicate CanExit(config: Config, p: Params, exit: Exit) {
    if exit.OutOfMemory? then true
    else
      config.poolCapacity > 0 &&
      match exit
      case InvalidEncoding => BadText(p)
      case NoPersistentSink => !BadText(p) && IsAudit(p) && !config.auditPipeline
      case SinkWriteFailed => !BadText(p) && IsAudit(p) && config.auditPipeline
      case BufferFull => !BadText(p) && !IsAudit(p)
      case Success =>
        !BadText(p) && if IsAudit(p) then config.auditPipeline && config.auditCapacity > 0 else config.ringCapacity > 0
      case _ => false
  }

  /** An ordinary call that has tried to push this often and helped this often. */
  predicate Ordinary(config: Config, p: Progress, pushes: nat, helped: nat) {
    && config.poolCapacity > 0
    && !BadText(p.params) && !IsAudit(p.params) && p.pushes == pushes && p.helped == helped
  }

  /** The fill check saw a ring that is at least nine tenths full. */
  predicate SawFull(config: Config, p: Progress) {
    p.seen.Some? && 10 * p.seen.value >= 9 * config.ringCapacity
  }

  /** What a call may have done by the time it returns. */
  predicate CallOk(config: Config, call: Call) {
    var p := call.progress;
    && CanExit(config, p.params, call.exit)
    && p.helped <= 32 && (p.helped > 0 ==> p.pushes > 0 && p.offered)
    && (p.offered <==> SawFull(config, p)) && (p.seen.Some? ==> config.helping && p.pushes > 0)
    && (call.exit.BufferFull? && config.helping ==> p.seen.Some?)
    && p.pushes == if IsAudit(p.params) || !(call.exit.Success? || call.exit.BufferFull?) then 0
                   else if p.helped > 0 then 2 else 1
  }

  /** What a thread's program counter says of its call, its record and the record it has taken. */
  predicate PcRouted(config: Config, levels: map<nat, nat>, p: Progress, pc: Pc) {
    match pc
    case Idle(_) => true
    case Allocating(params) => p == NewCall(params)
    case Auditing(i) =>
      !BadText(p.params) && IsAudit(p.params) && config.auditPipeline && p == NewCall(p.params)
      && config.poolCapacity > 0 && LevelOf(levels, i) == 6
    case Pushing(i) => Ordinary(config, p, 0, 0) && p.seen == None && !p.offered && LevelOf(levels, i) < 6
    case CheckingFill(i) =>
      Ordinary(config, p, 1, 0) && p.seen == None && !p.offered && config.helping && LevelOf(levels, i) < 6
    case Helping(i, left, helped) =>
      Ordinary(config, p, 1, helped) && config.helping && SawFull(config, p) && p.offered && left + helped == 32
      && LevelOf(levels, i) < 6
    case HelperFreeing(i, j, left, helped) =>
      Ordinary(config, p, 1, helped) && config.helping && SawFull(config, p) && p.offered && left + helped == 32
      && LevelOf(levels, i) < 6 && LevelOf(levels, j) < 6
    case Retrying(i) =>
      Ordinary(config, p, 1, p.helped) && 0 < p.helped <= 32 && config.helping && SawFull(config, p) && p.offered
      && LevelOf(levels, i) < 6
    case Returning(i, exit) => CallOk(config, Call(p, exit)) && !exit.Success? && !exit.OutOfMemory?
    case Draining(_) => true
    case Freeing(j, _) => LevelOf(levels, j) < 6
    case AuditDraining(_) => true
    case AuditFreeing(j, _) => LevelOf(levels, j) == 6
  }

  function Entries(queue: seq<nat>, levels: map<nat, nat>): (e: seq<Entry>)
    ensures |e| == |queue|
  {
    seq(|queue|, k requires 0 <= k < |queue| => Entry(queue[k], LevelOf(levels, queue[k])))
  }

  /** How many of these calls ended so. */
  function Number(calls: seq<Call>, exit: Exit): nat {
    if calls == [] then 0 else Number(calls[..|calls| - 1], exit) + if calls[|calls| - 1].exit == exit then 1 else 0
  }

  ghost predicate QueuesOk(st: State, trace: Trace) {
    && trace.ringIn == trace.ringOut + Entries(st.ring, trace.levels)
    && trace.auditIn == trace.auditOut + Entries(st.audit, trace.levels)
    && (forall k :: 0 <= k < |trace.ringIn| ==> trace.ringIn[k].level < 6)
    && (forall k :: 0 <= k < |trace.auditIn| ==> trace.auditIn[k].level == 6)
  }

  predicate StatsOk(stats: Stats, calls: seq<Call>) {
    && stats.accepted == Number(calls, Success) && stats.dropped == Number(calls, BufferFull)
    && stats.errors == Number(calls, OutOfMemory) + Number(calls, SinkWriteFailed) + Number(calls, NoPersistentSink)
  }

  ghost predicate CallsOk(config: Config, calls: seq<Call>) {
    forall k :: 0 <= k < |calls| ==> CallOk(config, calls[k])
  }

  ghost predicate ThreadRouted(st: State, trace: Trace, t: nat)
    requires t < |st.threads| == |trace.progress|
  {
    PcRouted(st.config, trace.levels, trace.progress[t], st.threads[t])
  }

  ghost predicate Observed(st: State, trace: Trace) {
    && |trace.progress| == |st.threads|
    && (forall t: nat :: t < |st.threads| ==> ThreadRouted(st, trace, t))
    && CallsOk(st.config, trace.calls) && QueuesOk(st, trace) && StatsOk(st.stats, trace.calls)
  }
}
