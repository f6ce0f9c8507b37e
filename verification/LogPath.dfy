/**
 The clients that move records between pool, ring, audit queue and consumers: `dologger_log`
 (core/src/ffi.rs:209-334), `CooperativeHelping::try_help` (core/src/lib.rs:172-237) and the drain
 callbacks of the two consumers. Pool and ring operations are atomic steps, a record is its pool index.
 */
module LogPath {
  import opened Wrappers

  /** A C string argument: absent, valid UTF-8 or not. */
  datatype Text = Null | Utf8 | Malformed

  datatype Params = Params(level: nat, message: Text, sourceFile: Text)

  datatype Exit =
    | NotCalled
    | Success
    | InvalidArgument
    | OutOfMemory
    | InvalidEncoding
    | SinkWriteFailed
    | NoPersistentSink
    | BufferFull
    | Drained

  /** The next pool, ring or queue operation of one thread. */
  datatype Pc =
    | Idle(last: Exit)
    | Allocating(params: Params)
    | Auditing(i: nat)
    | Pushing(i: nat)
    | CheckingFill(i: nat)
    | Helping(i: nat, left: nat, helped: nat)
    | HelperFreeing(i: nat, j: nat, left: nat, helped: nat)
    | Retrying(i: nat)
    | Returning(i: nat, exit: Exit)
    | Draining(left: nat)
    | Freeing(j: nat, left: nat)
    | AuditDraining(left: nat)
    | AuditFreeing(j: nat, left: nat)

  datatype Config = Config(poolCapacity: nat, ringCapacity: nat, auditCapacity: nat, auditPipeline: bool, helping: bool)

  datatype Stats = Stats(accepted: nat, errors: nat, dropped: nat)

  /** What one call has done with a record so far. */
  datatype Ledger = Ledger(allocs: nat, transferred: nat, freed: nat)

  /** `ledgers` and `consumed` are history: no step reads them. */
  datatype State = State(
    config: Config,
    free: seq<nat>,
    ring: seq<nat>,
    audit: seq<nat>,
    auditFailed: bool,
    stats: Stats,
    threads: seq<Pc>,
    ledgers: seq<Ledger>,
    consumed: nat)

  /**
   `StaleFull` is a push that answers "full" from a stale counter; `StopShort` a helping drain that
   meets an unpublished slot or loses its CAS.
   */
  datatype Action =
    | Log(params: Params)
    | LogNull
    | Consume(batch: nat)
    | ConsumeAudit(batch: nat)
    | AuditFails
    | Go
    | StaleFull
    | StopShort

  datatype Move = Move(thread: nat, action: Action)

  const AUDIT_LEVEL: nat := 6
  const HELPING_BATCH: nat := 32

  function Everything(capacity: nat): seq<nat> {
    seq(capacity, i requires 0 <= i < capacity => i)
  }

  function Init(config: Config, threads: nat): State {
    State(config, Everything(config.poolCapacity), [], [], false, Stats(0, 0, 0),
          seq(threads, _ => Idle(NotCalled)), seq(threads, _ => Ledger(0, 0, 0)), 0)
  }

  ghost predicate Live(st: State, t: nat) {
    t < |st.threads| == |st.ledgers|
  }

  function Become(st: State, t: nat, pc: Pc): State
    requires t < |st.threads|
  {
    st.(threads := st.threads[t := pc])
  }

  /** Where a filled record goes first. */
  function Route(config: Config, p: Params, i: nat): Pc {
    if p.message == Malformed || p.sourceFile == Malformed then Returning(i, InvalidEncoding)
    else if p.level == AUDIT_LEVEL then
      if config.auditPipeline then Auditing(i) else Returning(i, NoPersistentSink)
    else Pushing(i)
  }

  function Allocate(st: State, t: nat, p: Params): State
    requires Live(st, t)
  {
    if st.free == [] then
      Become(st, t, Idle(OutOfMemory)).(stats := st.stats.(errors := st.stats.errors + 1))
    else
      Become(st, t, Route(st.config, p, st.free[0])).(
        free := st.free[1..], ledgers := st.ledgers[t := st.ledgers[t].(allocs := st.ledgers[t].allocs + 1)])
  }

  /** The record has left the producer for good. */
  function Accept(st: State, t: nat): State
    requires Live(st, t)
  {
    Become(st, t, Idle(Success)).(
      stats := st.stats.(accepted := st.stats.accepted + 1),
      ledgers := st.ledgers[t := st.ledgers[t].(transferred := st.ledgers[t].transferred + 1)])
  }

  /** The producer frees its own record and reports why. */
  function GiveBack(st: State, t: nat, i: nat, exit: Exit): State
    requires Live(st, t)
  {
    Become(st, t, Idle(exit)).(
      free := [i] + st.free,
      stats := (match exit
                case BufferFull => st.stats.(dropped := st.stats.dropped + 1)
                case InvalidEncoding => st.stats
                case _ => st.stats.(errors := st.stats.errors + 1)),
      ledgers := st.ledgers[t := st.ledgers[t].(freed := st.ledgers[t].freed + 1)])
  }

  /** The end of `try_help`: a push is only tried again when something was helped away. */
  function HelpDone(i: nat, helped: nat): Pc {
    if helped > 0 then Retrying(i) else Returning(i, BufferFull)
  }

  /** The fill level is below the 0.90 threshold of `try_help`. */
  predicate BelowThreshold(length: nat, capacity: nat) {
    10 * length < 9 * capacity
  }

  function ThreadStep(st: State, t: nat, action: Action): (end: State)
    requires Live(st, t)
    ensures |end.threads| == |st.threads| && |end.ledgers| == |st.ledgers| && end.config == st.config
  {
    match st.threads[t]
    case Idle(_) => st
    case Allocating(p) => Allocate(st, t, p)
    case Auditing(i) =>
      if st.auditFailed then Become(st, t, Returning(i, SinkWriteFailed))
      else if |st.audit| < st.config.auditCapacity && action != StaleFull then Accept(st.(audit := st.audit + [i]), t)
      else st
    case Pushing(i) =>
      if |st.ring| < st.config.ringCapacity && action != StaleFull then Accept(st.(ring := st.ring + [i]), t)
      else Become(st, t, if st.config.helping then CheckingFill(i) else Returning(i, BufferFull))
    case CheckingFill(i) =>
      Become(st, t, if BelowThreshold(|st.ring|, st.config.ringCapacity) then Returning(i, BufferFull)
                    else Helping(i, HELPING_BATCH, 0))
    case Helping(i, left, helped) =>
      if left == 0 || st.ring == [] || action == StopShort then Become(st, t, HelpDone(i, helped))
      else Become(st, t, HelperFreeing(i, st.ring[0], left - 1, helped + 1)).(ring := st.ring[1..])
    case HelperFreeing(i, j, left, helped) =>
      Become(st, t, Helping(i, left, helped)).(free := [j] + st.free, consumed := st.consumed + 1)
    case Retrying(i) =>
      if |st.ring| < st.config.ringCapacity && action != StaleFull then Accept(st.(ring := st.ring + [i]), t)
      else Become(st, t, Returning(i, BufferFull))
    case Returning(i, exit) => GiveBack(st, t, i, exit)
    case Draining(left) =>
      if left == 0 || st.ring == [] then Become(st, t, Idle(Drained))
      else Become(st, t, Freeing(st.ring[0], left - 1)).(ring := st.ring[1..])
    case Freeing(j, left) => Become(st, t, Draining(left)).(free := [j] + st.free, consumed := st.consumed + 1)
    case AuditDraining(left) =>
      if left == 0 || st.audit == [] then Become(st, t, Idle(Drained))
      else Become(st, t, AuditFreeing(st.audit[0], left - 1)).(audit := st.audit[1..])
    case AuditFreeing(j, left) =>
      Become(st, t, AuditDraining(left)).(free := [j] + st.free, consumed := st.consumed + 1)
  }

  /** A new call starts with an empty ledger. */
  function Start(st: State, t: nat, pc: Pc): State
    requires Live(st, t)
  {
    Become(st, t, pc).(ledgers := st.ledgers[t := Ledger(0, 0, 0)])
  }

  function Step(st: State, m: Move): (end: State)
    requires |st.threads| == |st.ledgers|
    ensures |end.threads| == |st.threads| && |end.ledgers| == |st.ledgers| && end.config == st.config
  {
    if m.thread >= |st.threads| then st else
    match m.action
    case Log(p) => if st.threads[m.thread].Idle? then Start(st, m.thread, Allocating(p)) else st
    case LogNull => if st.threads[m.thread].Idle? then Start(st, m.thread, Idle(InvalidArgument)) else st
    case Consume(batch) => if st.threads[m.thread].Idle? then Start(st, m.thread, Draining(batch)) else st
    case ConsumeAudit(batch) => if st.threads[m.thread].Idle? then Start(st, m.thread, AuditDraining(batch)) else st
    case AuditFails => st.(auditFailed := true)
    case _ => ThreadStep(st, m.thread, m.action)
  }

  function Run(st: State, schedule: seq<Move>): (end: State)
    requires |st.threads| == |st.ledgers|
    ensures |end.threads| == |st.threads| && |end.ledgers| == |st.ledgers| && end.config == st.config
    decreases |schedule|
  {
    if schedule == [] then st else Run(Step(st, schedule[0]), schedule[1..])
  }

  // ---------------------------------------------------------------------------------------------
  // Conservation
  // ---------------------------------------------------------------------------------------------

  /** The record a producer owns. */
  function Own(pc: Pc): Option<nat> {
    match pc
    case Auditing(i) => Some(i)
    case Pushing(i) => Some(i)
    case CheckingFill(i) => Some(i)
    case Helping(i, _, _) => Some(i)
    case HelperFreeing(i, _, _, _) => Some(i)
    case Retrying(i) => Some(i)
    case Returning(i, _) => Some(i)
    case _ => None
  }

  /** The record a consumer, or a helper acting as one, has taken off a queue. */
  function Taken(pc: Pc): Option<nat> {
    match pc
    case HelperFreeing(_, j, _, _) => Some(j)
    case Freeing(j, _) => Some(j)
    case AuditFreeing(j, _) => Some(j)
    case _ => None
  }

  function Is(o: Option<nat>, i: nat): nat {
    if o == Some(i) then 1 else 0
  }

  function IsSome(o: Option<nat>): nat {
    if o.Some? then 1 else 0
  }

  /** How many producers own record `i`. */
  function Producers(threads: seq<Pc>, i: nat): nat {
    if threads == [] then 0 else Is(Own(threads[0]), i) + Producers(threads[1..], i)
  }

  /** How many consumers have record `i`. */
  function Consumers(threads: seq<Pc>, i: nat): nat {
    if threads == [] then 0 else Is(Taken(threads[0]), i) + Consumers(threads[1..], i)
  }

  /** How many records are in the hands of producers, and of consumers. */
  function Owned(threads: seq<Pc>): nat {
    if threads == [] then 0 else IsSome(Own(threads[0])) + Owned(threads[1..])
  }

  function InFlight(threads: seq<Pc>): nat {
    if threads == [] then 0 else IsSome(Taken(threads[0])) + InFlight(threads[1..])
  }

  function Queued(st: State, i: nat): nat {
    multiset(st.free)[i] + multiset(st.ring)[i] + multiset(st.audit)[i]
  }

  /** The number of places record `i` is in. */
  function Places(st: State, i: nat): nat {
    Queued(st, i) + Producers(st.threads, i) + Consumers(st.threads, i)
  }

  /** The exits of a call that owned a record and could not hand it over. */
  predicate Refused(exit: Exit) {
    exit.InvalidEncoding? || exit.SinkWriteFailed? || exit.NoPersistentSink? || exit.BufferFull?
  }

  /** The ledger of a call agrees with where the call is. */
  ghost predicate LedgerOk(pc: Pc, ledger: Ledger) {
    match pc
    case Idle(Success) => ledger == Ledger(1, 1, 0)
    case Idle(exit) =>
      ledger == if Refused(exit) then Ledger(1, 0, 1) else Ledger(0, 0, 0)
    case Returning(_, exit) =>
      ledger == Ledger(1, 0, 0) && Refused(exit)
    case _ => ledger == Ledger(IsSome(Own(pc)), 0, 0)
  }

  ghost predicate Settled(st: State) {
    |st.threads| == |st.ledgers| && forall t :: 0 <= t < |st.threads| ==> LedgerOk(st.threads[t], st.ledgers[t])
  }

  ghost predicate Invariant(st: State) {
    && Settled(st)
    && (forall i: nat :: Places(st, i) == if i < st.config.poolCapacity then 1 else 0)
    && |st.free| + |st.ring| + |st.audit| + Owned(st.threads) + InFlight(st.threads) == st.config.poolCapacity
    && st.stats.accepted == st.consumed + |st.ring| + |st.audit| + InFlight(st.threads)
  }
}
