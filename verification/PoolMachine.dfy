/**
 The record pool's free stack as an interleaved step machine (core/src/buffer/object_pool.rs:61-142).

 Every atomic load, compare-exchange, store and counter increment is one step. The head is a bare
 index (`None` for `usize::MAX`) without a version tag.
 */
module PoolMachine {
  import opened Wrappers

  datatype Outcome = NotCalled | Allocated(i: nat) | Exhausted | Freed(i: nat)

  /** The program counter of one thread: the access it performs next, with its locals. */
  datatype Pc =
    | Idle(last: Outcome)
    | AllocLoad
    | AllocNext(h: nat)
    | AllocCas(h: nat, next: Option<nat>)
    | AllocCount(i: nat)
    | FreeReset(i: nat)
    | FreeLoad(i: nat)
    | FreeLink(i: nat, head: Option<nat>)
    | FreeCas(i: nat, head: Option<nat>)
    | FreeCount(i: nat)

  /** Who may touch a record: nobody, the caller that allocated it, or a call in progress. */
  datatype Place = InPool | Caller | Call(thread: nat)

  /**
   The shared memory, the threads and the records their owners have written to, followed by history
   that no step reads: the free list, top first, and the place of each record.
   */
  datatype State = State(
    head: Option<nat>,
    next: seq<Option<nat>>,
    allocs: nat,
    frees: nat,
    threads: seq<Pc>,
    dirty: set<nat>,
    free: seq<nat>,
    place: seq<Place>)

  datatype Action = StartAlloc | StartFree(i: nat) | Touch(i: nat) | Go | SpuriousFailure

  datatype Move = Move(thread: nat, action: Action)

  function SaturatingSub(a: nat, b: nat): nat {
    if a >= b then a - b else 0
  }

  /** A fresh pool; the source panics on capacity 0. */
  function Init(capacity: nat, threads: nat): State
    requires capacity > 0
  {
    State(Some(0),
          seq(capacity, i requires 0 <= i < capacity => if i + 1 < capacity then Some(i + 1) else None),
          0, 0,
          seq(threads, _ => Idle(NotCalled)),
          {},
          seq(capacity, i requires 0 <= i < capacity => i),
          seq(capacity, i requires 0 <= i < capacity => InPool))
  }

  function Become(st: State, t: nat, pc: Pc): State
    requires t < |st.threads|
  {
    st.(threads := st.threads[t := pc])
  }

  /** A won alloc CAS: the head moves to the link that was loaded earlier. */
  function Pop(st: State, t: nat, h: nat, next: Option<nat>): State
    requires t < |st.threads| && h < |st.place|
  {
    Become(st, t, AllocCount(h)).(
      head := next, free := if st.free == [] then [] else st.free[1..], place := st.place[h := Call(t)])
  }

  /** A won free CAS: the record becomes the head. */
  function Push(st: State, t: nat, i: nat): State
    requires t < |st.threads| && i < |st.place|
  {
    Become(st, t, FreeCount(i)).(head := Some(i), free := [i] + st.free, place := st.place[i := InPool])
  }

  function ThreadStep(st: State, t: nat, casMayWin: bool): (end: State)
    requires t < |st.threads| && |st.next| == |st.place|
    ensures |end.threads| == |st.threads| && |end.next| == |end.place| == |st.place|
    ensures end.threads == st.threads[t := end.threads[t]]
  {
    match st.threads[t]
    case Idle(_) => st
    case AllocLoad => Become(st, t, if st.head == None then Idle(Exhausted) else AllocNext(st.head.value))
    case AllocNext(h) => if h < |st.next| then Become(st, t, AllocCas(h, st.next[h])) else st
    case AllocCas(h, next) =>
      if casMayWin && st.head == Some(h) && h < |st.place| then Pop(st, t, h, next) else Become(st, t, AllocLoad)
    case AllocCount(i) =>
      if i < |st.place| then
        Become(st, t, Idle(Allocated(i))).(allocs := st.allocs + 1, place := st.place[i := Caller])
      else st
    case FreeReset(i) => Become(st, t, FreeLoad(i)).(dirty := st.dirty - {i})
    case FreeLoad(i) => Become(st, t, FreeLink(i, st.head))
    case FreeLink(i, h) => if i < |st.next| then Become(st, t, FreeCas(i, h)).(next := st.next[i := h]) else st
    case FreeCas(i, h) =>
      if casMayWin && st.head == h && i < |st.place| then Push(st, t, i) else Become(st, t, FreeLoad(i))
    case FreeCount(i) => Become(st, t, Idle(Freed(i))).(frees := st.frees + 1)
  }

  /**
   One step of one thread. A record is only freed or written by a thread while a caller owns it; a
   move that is not possible leaves the state alone.
   */
  function Step(st: State, m: Move): (end: State)
    requires |st.next| == |st.place|
    ensures |end.threads| == |st.threads| && |end.next| == |end.place| == |st.place|
  {
    if m.thread >= |st.threads| then st else
    match m.action
    case StartAlloc => if st.threads[m.thread].Idle? then Become(st, m.thread, AllocLoad) else st
    case StartFree(i) =>
      if st.threads[m.thread].Idle? && i < |st.place| && st.place[i] == Caller then
        Become(st, m.thread, FreeReset(i)).(place := st.place[i := Call(m.thread)])
      else st
    case Touch(i) => if i < |st.place| && st.place[i] == Caller then st.(dirty := st.dirty + {i}) else st
    case Go => ThreadStep(st, m.thread, true)
    case SpuriousFailure => ThreadStep(st, m.thread, false)
  }

  function Run(st: State, schedule: seq<Move>): (end: State)
    requires |st.next| == |st.place|
    ensures |end.threads| == |st.threads| && |end.next| == |end.place| == |st.place|
    decreases |schedule|
  {
    if schedule == [] then st else Run(Step(st, schedule[0]), schedule[1..])
  }

  /** The thread is between its head load and its CAS. */
  ghost predicate WindowOpen(pc: Pc) {
    pc.AllocNext? || pc.AllocCas?
  }

  ghost predicate OneWindow(st: State) {
    forall t, u :: 0 <= t < u < |st.threads| ==> !(WindowOpen(st.threads[t]) && WindowOpen(st.threads[u]))
  }

  /** At most one alloc is between its head load and its CAS, all along the schedule. */
  ghost predicate Disciplined(st: State, schedule: seq<Move>)
    requires |st.next| == |st.place|
    decreases |schedule|
  {
    OneWindow(st) && (schedule == [] || Disciplined(Step(st, schedule[0]), schedule[1..]))
  }

  // ---------------------------------------------------------------------------------------------
  // The invariant
  // ---------------------------------------------------------------------------------------------

  ghost predicate Holds(pc: Pc, i: nat) {
    || (pc.AllocCount? && pc.i == i)
    || ((pc.FreeReset? || pc.FreeLoad? || pc.FreeLink? || pc.FreeCas?) && pc.i == i)
  }

  /** `list` is what following `next` from `head` visits, without repetition. */
  ghost predicate IsList(head: Option<nat>, next: seq<Option<nat>>, list: seq<nat>) {
    && head == First(list)
    && (forall k :: 0 <= k < |list| ==> list[k] < |next| && next[list[k]] == First(list[k + 1..]))
    && (forall j, k :: 0 <= j < k < |list| ==> list[j] != list[k])
  }

  function First(list: seq<nat>): Option<nat> {
    if list == [] then None else Some(list[0])
  }

  /** The list from the head holds exactly the records in nobody's hands. */
  ghost predicate Partitioned(st: State, list: seq<nat>) {
    && |st.next| == |st.place|
    && IsList(st.head, st.next, list)
    && (forall i :: 0 <= i < |st.place| ==> (st.place[i] == InPool <==> i in list))
  }

  /** A record in a call's hands is in the hands of that call; a free record is as reset. */
  ghost predicate PlaceOk(st: State, i: nat)
    requires i < |st.place|
  {
    && (st.place[i].Call? ==> st.place[i].thread < |st.threads| && Holds(st.threads[st.place[i].thread], i))
    && (st.place[i] == InPool ==> i !in st.dirty)
  }

  /** What a call knows about the record in its hands. */
  ghost predicate CallOk(st: State, t: nat, pc: Pc)
    requires |st.next| == |st.place|
  {
    match pc
    case AllocCount(i) => i < |st.place| && st.place[i] == Call(t) && i !in st.dirty
    case FreeReset(i) => i < |st.place| && st.place[i] == Call(t)
    case FreeLoad(i) => i < |st.place| && st.place[i] == Call(t) && i !in st.dirty
    case FreeLink(i, _) => i < |st.place| && st.place[i] == Call(t) && i !in st.dirty
    case FreeCas(i, h) => i < |st.place| && st.place[i] == Call(t) && i !in st.dirty && st.next[i] == h
    case _ => true
  }

  /** An open window's head is still on the list, and the link it loaded is still that head's link. */
  ghost predicate WindowOk(st: State, pc: Pc)
    requires |st.next| == |st.place|
  {
    match pc
    case AllocNext(h) => h < |st.place| && st.place[h] == InPool
    case AllocCas(h, next) => h < |st.place| && st.place[h] == InPool && st.next[h] == next
    case _ => true
  }

  /**
   The invariant without the alloc windows: kept, whatever overlaps, by every move but a won alloc CAS on a stale
   link.
   */
  ghost predicate Core(st: State) {
    && Partitioned(st, st.free)
    && (forall i: nat :: i < |st.place| ==> PlaceOk(st, i))
    && (forall t: nat :: t < |st.threads| ==> CallOk(st, t, st.threads[t]))
  }

  /** How far the counters lag behind the list because of calls that still have to count. */
  function Lag(threads: seq<Pc>): int {
    if threads == [] then 0 else Weight(threads[0]) + Lag(threads[1..])
  }

  function Weight(pc: Pc): int {
    if pc.AllocCount? then 1 else if pc.FreeCount? then -1 else 0
  }

  ghost predicate Accounted(st: State) {
    |st.free| + st.allocs + Lag(st.threads) == |st.place| + st.frees
  }

  ghost predicate Invariant(st: State) {
    && Core(st)
    && (forall t: nat :: t < |st.threads| ==> WindowOk(st, st.threads[t]))
    && Accounted(st)
  }
}
