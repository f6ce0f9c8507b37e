/**
 Every step of the record pool keeps the invariant, and so does every run with one alloc window
 (core/src/buffer/object_pool.rs:61-123).
 */
module PoolSteps {
  import opened PoolMachine
  import opened Wrappers

  predicate IsAlloc(pc: Pc) {
    pc.AllocLoad? || pc.AllocNext? || pc.AllocCas? || pc.AllocCount?
  }

  /** A record changes hands between a caller and a call of thread `t`. */
  ghost predicate HandsOver(st: State, t: nat, i: nat, pc: Pc, place: Place, allocs: nat)
    requires t < |st.threads| && i < |st.place|
  {
    || (st.threads[t].Idle? && st.place[i] == Caller && pc == FreeReset(i) && place == Call(t) && allocs == st.allocs)
    || (st.threads[t] == AllocCount(i) && pc == Idle(Allocated(i)) && place == Caller && allocs == st.allocs + 1)
  }

  /** A record in a caller's hands is written, or one in a freeing call's hands reset. */
  ghost predicate Dirties(st: State, dirty: set<nat>, t: nat, pc: Pc)
    requires t < |st.threads|
  {
    || (pc == st.threads[t] && exists i: nat :: i < |st.place| && st.place[i] == Caller && dirty == st.dirty + {i})
    || (st.threads[t].FreeReset? && pc == FreeLoad(st.threads[t].i) && dirty == st.dirty - {st.threads[t].i})
  }

  /** Distinct numbers below `n` are at most `n`. */
  lemma {:induction false} DistinctBelow(s: seq<nat>, n: nat)
    requires forall j, k :: 0 <= j < k < |s| ==> s[j] != s[k]
    requires forall k :: 0 <= k < |s| ==> s[k] < n
    ensures |s| <= n
    decreases n
  {
    if |s| > 0 {
      assert s[0] < n;
      if n - 1 in s {
        var k :| 0 <= k < |s| && s[k] == n - 1;
        var rest := s[..k] + s[k + 1..];
        forall m | 0 <= m < |rest| ensures rest[m] < n - 1 {
          assert rest[m] == s[if m < k then m else m + 1];
        }
        DistinctBelow(rest, n - 1);
      } else {
        DistinctBelow(s, n - 1);
      }
    }
  }

  lemma {:induction false} LagUpdate(threads: seq<Pc>, t: nat, pc: Pc)
    requires t < |threads|
    ensures Lag(threads[t := pc]) == Lag(threads) - Weight(threads[t]) + Weight(pc)
  {
    if t == 0 {
      assert threads[t := pc][1..] == threads[1..];
    } else {
      assert threads[t := pc][1..] == threads[1..][t - 1 := pc];
      LagUpdate(threads[1..], t - 1, pc);
    }
  }

  /** Steps that leave the records alone: the thread keeps holding what it held. */
  lemma LocalStepKeepsCore(st: State, t: nat, pc: Pc, allocs: nat, frees: nat)
    requires Core(st) && t < |st.threads|
    requires forall i: nat :: Holds(st.threads[t], i) ==> Holds(pc, i)
    requires CallOk(st, t, pc)
    ensures Core(Become(st, t, pc).(allocs := allocs, frees := frees))
  {
    var end := Become(st, t, pc).(allocs := allocs, frees := frees);
    forall i: nat | i < |end.place| ensures PlaceOk(end, i) {
      assert PlaceOk(st, i);
    }
    forall u: nat | u < |end.threads| ensures CallOk(end, u, end.threads[u]) {
      assert u != t ==> CallOk(st, u, st.threads[u]);
    }
  }

  lemma LocalStepKeeps(st: State, t: nat, pc: Pc, allocs: nat, frees: nat)
    requires Invariant(st) && t < |st.threads|
    requires forall i: nat :: Holds(st.threads[t], i) ==> Holds(pc, i)
    requires CallOk(st, t, pc) && WindowOk(st, pc)
    requires allocs - frees == st.allocs - st.frees + Weight(st.threads[t]) - Weight(pc)
    ensures Invariant(Become(st, t, pc).(allocs := allocs, frees := frees))
  {
    var end := Become(st, t, pc).(allocs := allocs, frees := frees);
    LagUpdate(st.threads, t, pc);
    LocalStepKeepsCore(st, t, pc, allocs, frees);
    forall u: nat | u < |end.threads| ensures WindowOk(end, end.threads[u]) {
      assert u != t ==> WindowOk(st, st.threads[u]);
    }
  }

  lemma PopIsList(head: Option<nat>, next: seq<Option<nat>>, list: seq<nat>)
    requires IsList(head, next, list) && head.Some?
    ensures list != [] && list[0] == head.value < |next| && list == [head.value] + list[1..]
    ensures IsList(next[head.value], next, list[1..])
  {
    forall k | 0 <= k < |list| - 1 ensures next[list[1..][k]] == First(list[1..][k + 1..]) {
      assert list[k + 1 + 1..] == list[1..][k + 1..];
    }
  }

  lemma PushIsList(head: Option<nat>, next: seq<Option<nat>>, list: seq<nat>, i: nat)
    requires IsList(head, next, list) && i < |next| && i !in list
    ensures IsList(Some(i), next[i := head], [i] + list)
  {
    var pushed := [i] + list;
    forall k | 0 <= k < |pushed| ensures pushed[k] < |next| && next[i := head][pushed[k]] == First(pushed[k + 1..]) {
      if k == 0 { assert pushed[1..] == list; } else { assert pushed[k + 1..] == list[k..] && pushed[k] in list; }
    }
    forall j, k | 0 <= j < k < |pushed| ensures pushed[j] != pushed[k] {
      assert pushed[k] in list;
    }
  }

  lemma PopList(st: State)
    requires IsList(st.head, st.next, st.free) && st.head.Some?
    ensures st.free != [] && st.free[0] == st.head.value < |st.next|
    ensures IsList(st.next[st.head.value], st.next, st.free[1..])
    ensures forall i :: i in st.free[1..] <==> i in st.free && i != st.head.value
  {
    PopIsList(st.head, st.next, st.free);
  }

  lemma PushList(st: State, i: nat)
    requires IsList(st.head, st.next, st.free) && i < |st.next| && i !in st.free && st.next[i] == st.head
    ensures IsList(Some(i), st.next, [i] + st.free)
  {
    PushIsList(st.head, st.next, st.free, i);
    assert st.next[i := st.head] == st.next;
  }

  lemma LinkList(st: State, i: nat, h: Option<nat>)
    requires IsList(st.head, st.next, st.free) && i < |st.next| && i !in st.free
    ensures IsList(st.head, st.next[i := h], st.free)
  {
    forall k | 0 <= k < |st.free| ensures st.free[k] != i {
      assert st.free[k] in st.free;
    }
  }

  lemma PopKeepsCore(st: State, t: nat)
    requires Core(st) && t < |st.threads| && st.threads[t].AllocCas? && st.head == Some(st.threads[t].h)
    requires st.threads[t].h < |st.next| && st.next[st.threads[t].h] == st.threads[t].next
    ensures Core(Pop(st, t, st.threads[t].h, st.threads[t].next))
  {
    var h := st.threads[t].h;
    var end := Pop(st, t, h, st.threads[t].next);
    PopList(st);
    forall i: nat | i < |end.place| ensures PlaceOk(end, i) {
      assert PlaceOk(st, i);
    }
    forall u: nat | u < |end.threads| ensures CallOk(end, u, end.threads[u]) {
      assert CallOk(st, u, st.threads[u]) && PlaceOk(st, h);
    }
  }

  lemma PopKeeps(st: State, t: nat)
    requires Invariant(st) && OneWindow(st)
    requires t < |st.threads| && st.threads[t].AllocCas? && st.head == Some(st.threads[t].h)
    ensures Invariant(Pop(st, t, st.threads[t].h, st.threads[t].next))
  {
    var h := st.threads[t].h;
    var end := Pop(st, t, h, st.threads[t].next);
    assert WindowOk(st, st.threads[t]);
    PopKeepsCore(st, t);
    PopList(st);
    LagUpdate(st.threads, t, AllocCount(h));
    forall u: nat | u < |end.threads| ensures WindowOk(end, end.threads[u]) {
      if u < t { assert !(WindowOpen(st.threads[u]) && WindowOpen(st.threads[t])); }
      if t < u { assert !(WindowOpen(st.threads[t]) && WindowOpen(st.threads[u])); }
    }
  }

  lemma PushKeepsCore(st: State, t: nat)
    requires Core(st) && t < |st.threads| && st.threads[t].FreeCas? && st.head == st.threads[t].head
    ensures st.threads[t].i < |st.place| && Core(Push(st, t, st.threads[t].i))
  {
    var i := st.threads[t].i;
    assert CallOk(st, t, st.threads[t]);
    var end := Push(st, t, i);
    PushList(st, i);
    forall r: nat | r < |end.place| ensures PlaceOk(end, r) {
      assert PlaceOk(st, r);
    }
    forall u: nat | u < |end.threads| ensures CallOk(end, u, end.threads[u]) {
      assert CallOk(st, u, st.threads[u]);
    }
  }

  lemma PushKeeps(st: State, t: nat)
    requires Invariant(st) && t < |st.threads| && st.threads[t].FreeCas? && st.head == st.threads[t].head
    ensures Invariant(Push(st, t, st.threads[t].i))
  {
    PushKeepsCore(st, t);
    var end := Push(st, t, st.threads[t].i);
    LagUpdate(st.threads, t, FreeCount(st.threads[t].i));
    forall u: nat | u < |end.threads| ensures WindowOk(end, end.threads[u]) {
      assert WindowOk(st, st.threads[u]);
    }
  }

  lemma LinkKeepsCore(st: State, t: nat)
    requires Core(st) && t < |st.threads| && st.threads[t].FreeLink?
    ensures st.threads[t].i < |st.next| && Core(ThreadStep(st, t, true))
  {
    var i, h := st.threads[t].i, st.threads[t].head;
    assert CallOk(st, t, st.threads[t]);
    var end := Become(st, t, FreeCas(i, h)).(next := st.next[i := h]);
    LinkList(st, i, h);
    forall r: nat | r < |end.place| ensures PlaceOk(end, r) {
      assert PlaceOk(st, r);
    }
    forall u: nat | u < |end.threads| ensures CallOk(end, u, end.threads[u]) {
      assert CallOk(st, u, st.threads[u]);
    }
  }

  lemma LinkKeeps(st: State, t: nat)
    requires Invariant(st) && t < |st.threads| && st.threads[t].FreeLink?
    ensures st.threads[t].i < |st.next| && Invariant(ThreadStep(st, t, true))
  {
    var i, h := st.threads[t].i, st.threads[t].head;
    LinkKeepsCore(st, t);
    assert CallOk(st, t, st.threads[t]);
    var end := Become(st, t, FreeCas(i, h)).(next := st.next[i := h]);
    LagUpdate(st.threads, t, FreeCas(i, h));
    forall u: nat | u < |end.threads| ensures WindowOk(end, end.threads[u]) {
      assert WindowOk(st, st.threads[u]);
    }
  }

  lemma HandOverKeepsCore(st: State, t: nat, i: nat, pc: Pc, place: Place, allocs: nat)
    requires Core(st) && t < |st.threads| && i < |st.place| && HandsOver(st, t, i, pc, place, allocs)
    ensures Core(Become(st, t, pc).(place := st.place[i := place], allocs := allocs))
  {
    var end := Become(st, t, pc).(place := st.place[i := place], allocs := allocs);
    assert CallOk(st, t, st.threads[t]);
    forall r: nat | r < |end.place| ensures PlaceOk(end, r) {
      assert PlaceOk(st, r);
    }
    forall u: nat | u < |end.threads| ensures CallOk(end, u, end.threads[u]) {
      assert CallOk(st, u, st.threads[u]);
    }
  }

  lemma HandOverKeeps(st: State, t: nat, i: nat, pc: Pc, place: Place, allocs: nat)
    requires Invariant(st) && t < |st.threads| && i < |st.place| && HandsOver(st, t, i, pc, place, allocs)
    ensures Invariant(Become(st, t, pc).(place := st.place[i := place], allocs := allocs))
  {
    var end := Become(st, t, pc).(place := st.place[i := place], allocs := allocs);
    HandOverKeepsCore(st, t, i, pc, place, allocs);
    LagUpdate(st.threads, t, pc);
    assert CallOk(st, t, st.threads[t]);
    forall u: nat | u < |end.threads| ensures WindowOk(end, end.threads[u]) {
      assert WindowOk(st, st.threads[u]);
    }
  }

  lemma DirtyKeepsCore(st: State, dirty: set<nat>, t: nat, pc: Pc)
    requires Core(st) && t < |st.threads| && CallOk(st.(dirty := dirty), t, pc) && Dirties(st, dirty, t, pc)
    ensures Core(Become(st, t, pc).(dirty := dirty))
  {
    var end := Become(st, t, pc).(dirty := dirty);
    forall r: nat | r < |end.place| ensures PlaceOk(end, r) {
      assert PlaceOk(st, r);
    }
    forall u: nat | u < |end.threads| ensures CallOk(end, u, end.threads[u]) {
      assert CallOk(st, u, st.threads[u]);
    }
  }

  lemma DirtyKeeps(st: State, dirty: set<nat>, t: nat, pc: Pc)
    requires Invariant(st) && t < |st.threads| && CallOk(st.(dirty := dirty), t, pc) && Dirties(st, dirty, t, pc)
    ensures Invariant(Become(st, t, pc).(dirty := dirty))
  {
    var end := Become(st, t, pc).(dirty := dirty);
    DirtyKeepsCore(st, dirty, t, pc);
    LagUpdate(st.threads, t, pc);
    forall u: nat | u < |end.threads| ensures WindowOk(end, end.threads[u]) {
      assert WindowOk(st, st.threads[u]);
    }
  }

  lemma AllocLoadKeeps(st: State, t: nat, casMayWin: bool)
    requires Invariant(st) && t < |st.threads| && (st.threads[t].AllocLoad? || st.threads[t].AllocNext?)
    ensures Invariant(ThreadStep(st, t, casMayWin))
  {
    assert WindowOk(st, st.threads[t]);
    match st.threads[t]
    case AllocLoad =>
      if st.head.Some? { PopList(st); }
      LocalStepKeeps(st, t, if st.head == None then Idle(Exhausted) else AllocNext(st.head.value), st.allocs, st.frees);
    case AllocNext(h) => LocalStepKeeps(st, t, AllocCas(h, st.next[h]), st.allocs, st.frees);
  }

  lemma AllocStepKeeps(st: State, t: nat, casMayWin: bool)
    requires Invariant(st) && OneWindow(st) && t < |st.threads| && IsAlloc(st.threads[t])
    ensures Invariant(ThreadStep(st, t, casMayWin))
  {
    assert CallOk(st, t, st.threads[t]) && WindowOk(st, st.threads[t]);
    match st.threads[t]
    case AllocCas(h, next) =>
      if casMayWin && st.head == Some(h) {
        PopKeeps(st, t);
      } else {
        LocalStepKeeps(st, t, AllocLoad, st.allocs, st.frees);
      }
    case AllocCount(i) => HandOverKeeps(st, t, i, Idle(Allocated(i)), Caller, st.allocs + 1);
    case _ => AllocLoadKeeps(st, t, casMayWin);
  }

  lemma FreeStepKeeps(st: State, t: nat, casMayWin: bool)
    requires Invariant(st) && t < |st.threads| && !IsAlloc(st.threads[t])
    ensures Invariant(ThreadStep(st, t, casMayWin))
  {
    assert CallOk(st, t, st.threads[t]);
    match st.threads[t]
    case Idle(_) =>
    case FreeReset(i) => DirtyKeeps(st, st.dirty - {i}, t, FreeLoad(i));
    case FreeLoad(i) => LocalStepKeeps(st, t, FreeLink(i, st.head), st.allocs, st.frees);
    case FreeLink(_, _) => LinkKeeps(st, t);
    case FreeCas(i, h) =>
      if casMayWin && st.head == h {
        PushKeeps(st, t);
      } else {
        LocalStepKeeps(st, t, FreeLoad(i), st.allocs, st.frees);
      }
    case FreeCount(i) => LocalStepKeeps(st, t, Idle(Freed(i)), st.allocs, st.frees + 1);
  }

  lemma ThreadStepKeeps(st: State, t: nat, casMayWin: bool)
    requires Invariant(st) && OneWindow(st) && t < |st.threads|
    ensures Invariant(ThreadStep(st, t, casMayWin))
  {
    if IsAlloc(st.threads[t]) { AllocStepKeeps(st, t, casMayWin); } else { FreeStepKeeps(st, t, casMayWin); }
  }

  lemma StartFreeKeeps(st: State, t: nat, i: nat)
    requires Invariant(st)
    ensures Invariant(Step(st, Move(t, StartFree(i))))
  {
    if t < |st.threads| && st.threads[t].Idle? && i < |st.place| && st.place[i] == Caller {
      HandOverKeeps(st, t, i, FreeReset(i), Call(t), st.allocs);
    }
  }

  lemma TouchKeeps(st: State, t: nat, i: nat)
    requires Invariant(st)
    ensures Invariant(Step(st, Move(t, Touch(i))))
  {
    if t < |st.threads| && i < |st.place| && st.place[i] == Caller {
      assert CallOk(st, t, st.threads[t]);
      DirtyKeeps(st, st.dirty + {i}, t, st.threads[t]);
      assert st.threads[t := st.threads[t]] == st.threads;
    }
  }

  lemma StartAllocKeeps(st: State, t: nat)
    requires Invariant(st)
    ensures Invariant(Step(st, Move(t, StartAlloc)))
  {
    if t < |st.threads| && st.threads[t].Idle? { LocalStepKeeps(st, t, AllocLoad, st.allocs, st.frees); }
  }

  /** Every move keeps the invariant, provided the state before it has at most one open alloc window. */
  lemma StepKeeps(st: State, m: Move)
    requires Invariant(st) && OneWindow(st)
    ensures Invariant(Step(st, m))
  {
    if m.thread < |st.threads| {
      match m.action
      case StartAlloc => StartAllocKeeps(st, m.thread);
      case StartFree(i) => StartFreeKeeps(st, m.thread, i);
      case Touch(i) => TouchKeeps(st, m.thread, i);
      case Go => ThreadStepKeeps(st, m.thread, true);
      case SpuriousFailure => ThreadStepKeeps(st, m.thread, false);
    }
  }

  lemma {:induction false} IdleLag(threads: seq<Pc>)
    requires forall t :: 0 <= t < |threads| ==> Weight(threads[t]) == 0
    ensures Lag(threads) == 0
  {
    if threads != [] { IdleLag(threads[1..]); }
  }

  lemma InitOk(capacity: nat, threads: nat)
    requires capacity > 0
    ensures Invariant(Init(capacity, threads))
  {
    var st := Init(capacity, threads);
    IdleLag(st.threads);
    forall i | 0 <= i < |st.place| ensures i in st.free {
      assert st.free[i] == i;
    }
  }

  lemma {:induction false} RunKeeps(st: State, schedule: seq<Move>)
    requires Invariant(st) && Disciplined(st, schedule)
    ensures Invariant(Run(st, schedule)) && OneWindow(Run(st, schedule))
    decreases |schedule|
  {
    if schedule != [] {
      StepKeeps(st, schedule[0]);
      RunKeeps(Step(st, schedule[0]), schedule[1..]);
    }
  }
}
