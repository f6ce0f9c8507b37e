/**
 Which queue each record takes, how each `dologger_log` call can end, and how far helping goes, over every run of any
 number of threads (core/src/ffi.rs:209-334, core/src/lib.rs:172-237).
 */
module LogOutcomes {
  import opened LogPath
  import opened LogRouting
  import opened LogSteps
  import opened LogTrace

  /** The observer's notes after this schedule. */
  function Seen(config: Config, threads: nat, schedule: seq<Move>): Trace {
    Watch(Init(config, threads), schedule, NoTrace(threads))
  }

  lemma SeenObserved(config: Config, threads: nat, schedule: seq<Move>)
    ensures Observed(Run(Init(config, threads), schedule), Seen(config, threads, schedule))
  {
    InitOk(config, threads);
    InitObserved(config, threads);
    RunObserved(Init(config, threads), schedule, NoTrace(threads));
  }

  lemma SeenCallOk(config: Config, threads: nat, schedule: seq<Move>, k: nat)
    requires k < |Seen(config, threads, schedule).calls|
    ensures CallOk(config, Seen(config, threads, schedule).calls[k])
  {
    SeenObserved(config, threads, schedule);
  }

  /**
   Both queues are first-in, first-out. No audit record ever enters the ordinary ring or is taken off it by a helper or
   consumer, and nothing but audit records enters the audit queue or is taken off it.
   */
  lemma AuditRecordsStayApart(config: Config, threads: nat, schedule: seq<Move>)
    ensures var st, seen := Run(Init(config, threads), schedule), Seen(config, threads, schedule);
            && seen.ringIn == seen.ringOut + Entries(st.ring, seen.levels)
            && seen.auditIn == seen.auditOut + Entries(st.audit, seen.levels)
            && (forall k :: 0 <= k < |seen.ringIn| ==> seen.ringIn[k].level < 6)
            && (forall k :: 0 <= k < |seen.auditIn| ==> seen.auditIn[k].level == 6)
    ensures var st, levels := Run(Init(config, threads), schedule), Seen(config, threads, schedule).levels;
            forall t: nat :: t < |st.threads| ==>
              match st.threads[t]
              case Freeing(j, _) => LevelOf(levels, j) < 6
              case HelperFreeing(_, j, _, _) => LevelOf(levels, j) < 6
              case AuditFreeing(j, _) => LevelOf(levels, j) == 6
              case _ => true
  {
    SeenObserved(config, threads, schedule);
    var st, seen := Run(Init(config, threads), schedule), Seen(config, threads, schedule);
    forall t: nat | t < |st.threads|
      ensures match st.threads[t]
              case Freeing(j, _) => LevelOf(seen.levels, j) < 6
              case HelperFreeing(_, j, _, _) => LevelOf(seen.levels, j) < 6
              case AuditFreeing(j, _) => LevelOf(seen.levels, j) == 6
              case _ => true
    {
      assert ThreadRouted(st, seen, t);
    }
  }

  /**
   How a call ends is decided by what it was given: a malformed text is the one reason for `InvalidEncoding` and
   leaves no other exit but an exhausted pool; an audit record never meets a full buffer, and alone can miss its sink.
   */
  lemma ExitsFollowTheRequest(config: Config, threads: nat, schedule: seq<Move>, k: nat)
    requires k < |Seen(config, threads, schedule).calls|
    ensures var call := Seen(config, threads, schedule).calls[k];
            var p, exit := call.progress.params, call.exit;
            && exit in {Success, OutOfMemory, InvalidEncoding, NoPersistentSink, SinkWriteFailed, BufferFull}
            && (exit != OutOfMemory ==>
                  (exit == InvalidEncoding <==> p.message == Malformed || p.sourceFile == Malformed))
            && (exit == NoPersistentSink ==> p.level == 6 && !config.auditPipeline)
            && (exit == SinkWriteFailed ==> p.level == 6 && config.auditPipeline)
            && (exit == BufferFull ==> p.level != 6)
            && (exit == Success && p.level == 6 ==> config.auditPipeline)
  {
    SeenCallOk(config, threads, schedule, k);
  }

  /**
   A call helps only where helping is on and its fill check saw nine tenths of the ring taken, helps at most 32
   records away, and pushes once more exactly if it helped any. An audit record is never pushed on the ring.
   */
  lemma HelpingIsBounded(config: Config, threads: nat, schedule: seq<Move>, k: nat)
    requires k < |Seen(config, threads, schedule).calls|
    ensures var call := Seen(config, threads, schedule).calls[k];
            var p := call.progress;
            && p.helped <= 32
            && (p.helped > 0 ==> p.offered)
            && (p.offered <==> p.seen.Some? && 10 * p.seen.value >= 9 * config.ringCapacity)
            && (p.seen.Some? ==> config.helping && p.params.level != 6)
            && (call.exit == BufferFull && config.helping ==> p.seen.Some?)
            && p.pushes == if p.params.level == 6 || (call.exit != Success && call.exit != BufferFull) then 0
                           else if p.helped > 0 then 2 else 1
  {
    SeenCallOk(config, threads, schedule, k);
  }

  /** The control statistics are the numbers of calls that ended so. */
  lemma StatisticsCountExits(config: Config, threads: nat, schedule: seq<Move>)
    ensures var stats, calls := Run(Init(config, threads), schedule).stats, Seen(config, threads, schedule).calls;
            && stats.accepted == Number(calls, Success) && stats.dropped == Number(calls, BufferFull)
            && stats.errors == Number(calls, OutOfMemory) + Number(calls, SinkWriteFailed)
                               + Number(calls, NoPersistentSink)
  {
    SeenObserved(config, threads, schedule);
  }

  // ---------------------------------------------------------------------------------------------
  // Every such exit happens
  // ---------------------------------------------------------------------------------------------

  /** A run from the start leads to this state and these notes. */
  ghost predicate Reach(config: Config, threads: nat, st: State, trace: Trace) {
    |st.threads| == |st.ledgers| == |trace.progress| == threads && st.config == config
    && exists schedule :: Run(Init(config, threads), schedule) == st && Seen(config, threads, schedule) == trace
  }

  lemma {:induction false} RunOn(a: State, schedule: seq<Move>, m: Move, trace: Trace)
    requires |a.threads| == |a.ledgers| == |trace.progress|
    ensures Run(a, schedule + [m]) == Step(Run(a, schedule), m)
    ensures Watch(a, schedule + [m], trace) == Observe(Run(a, schedule), m, Watch(a, schedule, trace))
    decreases |schedule|
  {
    if schedule == [] {
      assert schedule + [m] == [m] && [m][1..] == [];
      assert Run(Step(a, m), []) == Step(a, m);
    } else {
      assert (schedule + [m])[1..] == schedule[1..] + [m];
      RunOn(Step(a, schedule[0]), schedule[1..], m, Observe(a, schedule[0], trace));
    }
  }

  lemma ReachStart(config: Config, threads: nat)
    ensures Reach(config, threads, Init(config, threads), NoTrace(threads))
  {
    assert Run(Init(config, threads), []) == Init(config, threads);
    assert Seen(config, threads, []) == NoTrace(threads);
  }

  lemma ReachOn(config: Config, threads: nat, st: State, trace: Trace, m: Move)
    requires Reach(config, threads, st, trace)
    ensures Reach(config, threads, Step(st, m), Observe(st, m, trace))
  {
    var schedule :| Run(Init(config, threads), schedule) == st && Seen(config, threads, schedule) == trace;
    RunOn(Init(config, threads), schedule, m, NoTrace(threads));
  }

  /** Some call with these parameters ended so. */
  ghost predicate Ended(trace: Trace, p: Params, exit: Exit) {
    exists k :: 0 <= k < |trace.calls| && trace.calls[k].progress.params == p && trace.calls[k].exit == exit
  }

  /** In some run of some number of threads a call with these parameters ends so. */
  ghost predicate CanEnd(config: Config, p: Params, exit: Exit) {
    exists threads: nat, schedule :: Ended(Seen(config, threads, schedule), p, exit)
  }

  lemma ReachedEnd(config: Config, threads: nat, st: State, trace: Trace, p: Params, exit: Exit)
    requires Reach(config, threads, st, trace) && trace.calls != []
    requires trace.calls[|trace.calls| - 1].progress.params == p && trace.calls[|trace.calls| - 1].exit == exit
    ensures CanEnd(config, p, exit)
  {
    var schedule :| Run(Init(config, threads), schedule) == st && Seen(config, threads, schedule) == trace;
    assert Ended(Seen(config, threads, schedule), p, exit);
  }

  /** Thread `t` starts a call with these parameters and does its first step. */
  lemma Enter(config: Config, threads: nat, st: State, trace: Trace, t: nat, p: Params)
    returns (end: State, after: Trace)
    requires Reach(config, threads, st, trace) && t < threads && st.threads[t].Idle?
    ensures Reach(config, threads, end, after) && after.progress[t] == NewCall(p)
    ensures end.ring == st.ring && end.audit == st.audit && end.auditFailed == st.auditFailed
    ensures forall u :: 0 <= u < threads && u != t ==> end.threads[u] == st.threads[u]
    ensures st.free != [] ==>
              end.threads[t] == Route(config, p, st.free[0]) && end.free == st.free[1..] && after.calls == trace.calls
    ensures st.free == [] ==> after.calls == trace.calls + [Call(NewCall(p), OutOfMemory)]
  {
    var s1, tr1 := Start(st, t, Allocating(p)), With(trace, t, NewCall(p));
    ReachOn(config, threads, st, trace, Move(t, Log(p)));
    assert Step(st, Move(t, Log(p))) == s1 && Observe(st, Move(t, Log(p)), trace) == tr1;
    ReachOn(config, threads, s1, tr1, Move(t, Go));
    end, after := Allocate(s1, t, p), Observe(s1, Move(t, Go), tr1);
    assert Step(s1, Move(t, Go)) == end;
  }

  /** A call that is giving its record back ends with its reason. */
  lemma GivesBack(config: Config, threads: nat, st: State, trace: Trace, t: nat)
    requires Reach(config, threads, st, trace) && t < threads && st.threads[t].Returning?
    ensures CanEnd(config, trace.progress[t].params, st.threads[t].exit)
  {
    ReachOn(config, threads, st, trace, Move(t, Go));
    var after := Observe(st, Move(t, Go), trace);
    assert after.calls == trace.calls + [Call(trace.progress[t], st.threads[t].exit)];
    ReachedEnd(config, threads, Step(st, Move(t, Go)), after, trace.progress[t].params, st.threads[t].exit);
  }

  /** One call of one thread gets record 0. */
  lemma FirstCall(config: Config, p: Params) returns (st: State, trace: Trace)
    requires config.poolCapacity > 0
    ensures Reach(config, 1, st, trace) && trace.progress[0].params == p
    ensures st.threads[0] == Route(config, p, 0) && st.ring == [] && st.audit == [] && !st.auditFailed
  {
    ReachStart(config, 1);
    st, trace := Enter(config, 1, Init(config, 1), NoTrace(1), 0, p);
  }

  lemma AuditCanFail(config: Config, p: Params)
    requires config.poolCapacity > 0 && Route(config, p, 0).Auditing?
    ensures CanEnd(config, p, SinkWriteFailed)
  {
    var st, trace := FirstCall(config, p);
    ReachOn(config, 1, st, trace, Move(0, AuditFails));
    var s1 := st.(auditFailed := true);
    assert Step(st, Move(0, AuditFails)) == s1 && Observe(st, Move(0, AuditFails), trace) == trace;
    ReachOn(config, 1, s1, trace, Move(0, Go));
    var s2 := Become(s1, 0, Returning(0, SinkWriteFailed));
    assert Step(s1, Move(0, Go)) == s2 && Observe(s1, Move(0, Go), trace) == trace;
    GivesBack(config, 1, s2, trace, 0);
  }

  lemma AuditCanSucceed(config: Config, p: Params)
    requires config.poolCapacity > 0 && config.auditCapacity > 0 && Route(config, p, 0).Auditing?
    ensures CanEnd(config, p, Success)
  {
    var st, trace := FirstCall(config, p);
    ReachOn(config, 1, st, trace, Move(0, Go));
    var end, after := Accept(st.(audit := st.audit + [0]), 0), Observe(st, Move(0, Go), trace);
    assert Step(st, Move(0, Go)) == end;
    assert after.calls == trace.calls + [Call(trace.progress[0], Success)];
    ReachedEnd(config, 1, end, after, p, Success);
  }

  lemma OrdinaryCanSucceed(config: Config, p: Params)
    requires config.poolCapacity > 0 && config.ringCapacity > 0 && Route(config, p, 0).Pushing?
    ensures CanEnd(config, p, Success)
  {
    var st, trace := FirstCall(config, p);
    ReachOn(config, 1, st, trace, Move(0, Go));
    var end, after := Accept(st.(ring := st.ring + [0]), 0), Observe(st, Move(0, Go), trace);
    assert Step(st, Move(0, Go)) == end;
    assert after == PushSeen(trace, 0, 0);
    ReachedEnd(config, 1, end, after, p, Success);
  }

  lemma NothingHelped(config: Config, p: Params, st: State, trace: Trace)
    requires Reach(config, 1, st, trace) && st.threads[0] == Helping(0, 32, 0) && st.ring == []
    requires trace.progress[0].params == p
    ensures CanEnd(config, p, BufferFull)
  {
    ReachOn(config, 1, st, trace, Move(0, Go));
    var s1 := Become(st, 0, Returning(0, BufferFull));
    assert Step(st, Move(0, Go)) == s1 && Observe(st, Move(0, Go), trace) == trace;
    GivesBack(config, 1, s1, trace, 0);
  }

  lemma EmptyRingHelpsNothing(config: Config, p: Params, st: State, trace: Trace)
    requires Reach(config, 1, st, trace) && st.threads[0] == CheckingFill(0) && st.ring == []
    requires trace.progress[0].params == p
    ensures CanEnd(config, p, BufferFull)
  {
    ReachOn(config, 1, st, trace, Move(0, Go));
    var s1, tr1 := Step(st, Move(0, Go)), Observe(st, Move(0, Go), trace);
    assert tr1.progress[0].params == p;
    if config.ringCapacity == 0 {
      NothingHelped(config, p, s1, tr1);
    } else {
      GivesBack(config, 1, s1, tr1, 0);
    }
  }

  /** A push that is answered "full" from a stale counter on an empty ring: there is nothing to help with. */
  lemma OrdinaryCanFail(config: Config, p: Params)
    requires config.poolCapacity > 0 && Route(config, p, 0).Pushing?
    ensures CanEnd(config, p, BufferFull)
  {
    var st, trace := FirstCall(config, p);
    ReachOn(config, 1, st, trace, Move(0, StaleFull));
    var s1 := Become(st, 0, if config.helping then CheckingFill(0) else Returning(0, BufferFull));
    var tr1 := Observe(st, Move(0, StaleFull), trace);
    assert Step(st, Move(0, StaleFull)) == s1 && tr1.progress[0].params == p;
    if config.helping {
      EmptyRingHelpsNothing(config, p, s1, tr1);
    } else {
      GivesBack(config, 1, s1, tr1, 0);
    }
  }

  const ORDINARY: Params := Params(2, Utf8, Null)

  /** Of one thread more than there are records, the first `k` have one each and the others have not called. */
  lemma {:induction false} Exhaust(config: Config, k: nat) returns (st: State, trace: Trace)
    requires k <= config.poolCapacity
    ensures Reach(config, config.poolCapacity + 1, st, trace) && |st.free| == config.poolCapacity - k
    ensures forall u :: k <= u <= config.poolCapacity ==> st.threads[u].Idle?
  {
    if k == 0 {
      ReachStart(config, config.poolCapacity + 1);
      st, trace := Init(config, config.poolCapacity + 1), NoTrace(config.poolCapacity + 1);
    } else {
      var before, notes := Exhaust(config, k - 1);
      st, trace := Enter(config, config.poolCapacity + 1, before, notes, k - 1, ORDINARY);
    }
  }

  lemma PoolCanRunOut(config: Config, p: Params)
    ensures CanEnd(config, p, OutOfMemory)
  {
    var n := config.poolCapacity;
    var st, trace := Exhaust(config, n);
    var end, after := Enter(config, n + 1, st, trace, n, p);
    ReachedEnd(config, n + 1, end, after, p, OutOfMemory);
  }

  lemma FirstCanReturn(config: Config, p: Params)
    requires config.poolCapacity > 0 && Route(config, p, 0).Returning?
    ensures CanEnd(config, p, Route(config, p, 0).exit)
  {
    var st, trace := FirstCall(config, p);
    GivesBack(config, 1, st, trace, 0);
  }

  /** The exits of a call: its texts, its level, the audit pipeline and what has room at all decide. */
  function ExitsFor(config: Config, p: Params): set<Exit> {
    if config.poolCapacity == 0 then {OutOfMemory}
    else if p.message == Malformed || p.sourceFile == Malformed then {OutOfMemory, InvalidEncoding}
    else if p.level != 6 then {OutOfMemory, BufferFull} + (if config.ringCapacity > 0 then {Success} else {})
    else if !config.auditPipeline then {OutOfMemory, NoPersistentSink}
    else {OutOfMemory, SinkWriteFailed} + (if config.auditCapacity > 0 then {Success} else {})
  }

  lemma OnlyTheseExits(config: Config, p: Params, exit: Exit)
    requires CanEnd(config, p, exit)
    ensures CanExit(config, p, exit)
  {
    var threads: nat, schedule :| Ended(Seen(config, threads, schedule), p, exit);
    var calls := Seen(config, threads, schedule).calls;
    var k :| 0 <= k < |calls| && calls[k].progress.params == p && calls[k].exit == exit;
    SeenCallOk(config, threads, schedule, k);
  }

  lemma PossibleIsListed(config: Config, p: Params, exit: Exit)
    requires CanExit(config, p, exit)
    ensures exit in ExitsFor(config, p)
  {
  }

  lemma TheseExitsHappen(config: Config, p: Params, exit: Exit)
    requires exit in ExitsFor(config, p)
    ensures CanEnd(config, p, exit)
  {
    if exit == OutOfMemory {
      PoolCanRunOut(config, p);
    } else if Route(config, p, 0).Returning? {
      FirstCanReturn(config, p);
    } else if exit == SinkWriteFailed {
      AuditCanFail(config, p);
    } else if exit == BufferFull {
      OrdinaryCanFail(config, p);
    } else if p.level == 6 {
      AuditCanSucceed(config, p);
    } else {
      OrdinaryCanSucceed(config, p);
    }
  }

  /**
   For every request: the exits a call can end with in some run of some number of threads are exactly these. A record
   whose text is malformed is refused, whatever its level; an audit record is admitted or misses its sink, but never
   meets a full buffer; any other is admitted or meets a full buffer; and the pool can always be exhausted.
   */
  lemma PossibleExits(config: Config, p: Params, exit: Exit)
    ensures CanEnd(config, p, exit) <==> exit in ExitsFor(config, p)
  {
    if exit in ExitsFor(config, p) {
      TheseExitsHappen(config, p, exit);
    } else if CanEnd(config, p, exit) {
      OnlyTheseExits(config, p, exit);
      PossibleIsListed(config, p, exit);
    }
  }
}
