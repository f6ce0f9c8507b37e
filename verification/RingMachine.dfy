/**
 The ring buffer's hand-off protocol as an interleaved step machine
 (core/src/buffer/ring_buffer.rs:128-326).

 Every atomic load, compare-exchange and store of the source is one step, and so is every access to
 a slot's data cell and every callback. A schedule names, step by step, which thread moves and
 whether a weak compare-exchange fails spuriously; memory is sequentially consistent and counters
 are unbounded.
 */
module RingMachine {
  import opened SlotIndex
  import opened Wrappers

  /** What the ring carries. */
  type Item(==, 0, !new)

  /** `data` is the unsynchronised cell; `sequence` is the atomic that guards it. */
  datatype Slot = Slot(sequence: nat, data: Option<Item>)

  /** A running `drain` (or, when `helping`, `drain_helping`): `count` callbacks so far, `wins` won CASes. */
  datatype Drain = Drain(helping: bool, batch: nat, count: nat, wins: nat)

  datatype Outcome =
    | NotCalled
    | Pushed(at: nat, item: Item)
    | Full(item: Item)
    | Drained(drain: Drain)

  /** The program counter of one thread: the atomic access it performs next, with its locals. */
  datatype Pc =
    | Idle(last: Outcome)
    | PushLoadConsumer(item: Item)
    | PushLoadProducer(item: Item, c: nat)
    | PushCas(item: Item, p: nat)
    | PushWait(item: Item, p: nat)
    | PushWrite(item: Item, p: nat)
    | PushPublish(item: Item, p: nat)
    | DrainLoadConsumer(drain: Drain)
    | DrainLoadProducer(drain: Drain, c: nat)
    | DrainWait(drain: Drain, c: nat)
    | DrainRecheck(drain: Drain, c: nat)
    | DrainCas(drain: Drain, c: nat)
    | DrainTake(drain: Drain, c: nat)
    | DrainCallback(drain: Drain, c: nat, found: Option<Item>)
    | DrainRelease(drain: Drain, c: nat)

  /** A push under way. */
  predicate IsPush(pc: Pc) {
    pc.PushLoadConsumer? || pc.PushLoadProducer? || pc.PushCas? || pc.PushWait? || pc.PushWrite? || pc.PushPublish?
  }

  /** A drain before its CAS. */
  predicate IsLooking(pc: Pc) {
    pc.DrainLoadConsumer? || pc.DrainLoadProducer? || pc.DrainWait? || pc.DrainRecheck?
  }

  /** A drain between its winning CAS and its release. */
  predicate IsHolding(pc: Pc) {
    pc.DrainTake? || pc.DrainCallback? || pc.DrainRelease?
  }

  /** One callback invocation: the sequence number whose slot it came from, and the item. */
  datatype Delivery = Delivery(at: nat, item: Item)

  /**
   The shared memory and the threads, followed by history that no step reads: items and threads in
   order of winning producer CAS, threads in order of winning consumer CAS, callbacks in order, and
   the position in `delivered` of each delivered sequence number.
   */
  datatype State = State(
    slots: seq<Slot>,
    producer: nat,
    consumer: nat,
    threads: seq<Pc>,
    pushed: seq<Item>,
    pushers: seq<nat>,
    takers: seq<nat>,
    delivered: seq<Delivery>,
    position: map<nat, nat>)

  /** What a schedule may ask of a thread. `SpuriousFailure` differs from `Go` only at a weak CAS. */
  datatype Action = StartPush(item: Item) | StartDrain(helping: bool, batch: nat) | Go | SpuriousFailure

  datatype Move = Move(thread: nat, action: Action)

  function Init(capacity: nat, threads: nat): State {
    State(seq(capacity, i requires 0 <= i < capacity => Slot(i, None)), 0, 0,
          seq(threads, i requires 0 <= i < threads => Idle(NotCalled)), [], [], [], [], map[])
  }

  ghost predicate Live(st: State, t: nat) {
    |st.slots| > 0 && t < |st.threads|
  }

  function At(st: State, s: nat): Slot
    requires |st.slots| > 0
  {
    st.slots[Index(s, |st.slots|)]
  }

  function Store(st: State, s: nat, slot: Slot): State
    requires |st.slots| > 0
  {
    st.(slots := st.slots[Index(s, |st.slots|) := slot])
  }

  function Become(st: State, t: nat, pc: Pc): State
    requires t < |st.threads|
  {
    st.(threads := st.threads[t := pc])
  }

  /** A won producer CAS. */
  function Claim(st: State, t: nat, item: Item, p: nat): State
    requires Live(st, t)
  {
    Become(st, t, PushWait(item, p)).(producer := p + 1, pushed := st.pushed + [item], pushers := st.pushers + [t])
  }

  function Write(st: State, t: nat, item: Item, p: nat): State
    requires Live(st, t)
  {
    Become(Store(st, p, At(st, p).(data := Some(item))), t, PushPublish(item, p))
  }

  function Publish(st: State, t: nat, item: Item, p: nat): State
    requires Live(st, t)
  {
    Become(Store(st, p, At(st, p).(sequence := p + 1)), t, Idle(Pushed(p, item)))
  }

  /** A won consumer CAS. */
  function Win(st: State, t: nat, d: Drain, c: nat): State
    requires Live(st, t)
  {
    Become(st, t, DrainTake(d.(wins := d.wins + 1), c)).(consumer := c + 1, takers := st.takers + [t])
  }

  function Take(st: State, t: nat, d: Drain, c: nat): State
    requires Live(st, t)
  {
    Become(Store(st, c, At(st, c).(data := None)), t, DrainCallback(d, c, At(st, c).data))
  }

  function Deliver(st: State, t: nat, d: Drain, c: nat, found: Option<Item>): State
    requires Live(st, t)
  {
    if found.Some? then
      Become(st, t, DrainRelease(d.(count := d.count + 1), c)).(
        delivered := st.delivered + [Delivery(c, found.value)], position := st.position[c := |st.delivered|])
    else
      Become(st, t, DrainRelease(d, c))
  }

  function Release(st: State, t: nat, d: Drain, c: nat): State
    requires Live(st, t)
  {
    Become(Store(st, c, At(st, c).(sequence := c + |st.slots|)), t, NextRound(d))
  }

  /** The head of both drain loops: go round again while the batch is not complete. */
  function NextRound(d: Drain): Pc {
    if d.count < d.batch then DrainLoadConsumer(d) else Idle(Drained(d))
  }

  /** Where a drain goes when its slot is unpublished or its CAS is lost: helpers return, the consumer retries. */
  function GiveUp(d: Drain, retry: Pc): Pc {
    if d.helping then Idle(Drained(d)) else retry
  }

  function ThreadStep(st: State, t: nat, casMayWin: bool): (end: State)
    requires Live(st, t)
    ensures |end.slots| == |st.slots| && |end.threads| == |st.threads|
    ensures end.threads == st.threads[t := end.threads[t]]
  {
    match st.threads[t]
    case Idle(_) => st
    case PushLoadConsumer(item) => Become(st, t, PushLoadProducer(item, st.consumer))
    case PushLoadProducer(item, c) =>
      Become(st, t, if st.producer >= c + |st.slots| then Idle(Full(item)) else PushCas(item, st.producer))
    case PushCas(item, p) =>
      if casMayWin && st.producer == p then Claim(st, t, item, p) else Become(st, t, PushLoadConsumer(item))
    case PushWait(item, p) => if At(st, p).sequence == p then Become(st, t, PushWrite(item, p)) else st
    case PushWrite(item, p) => Write(st, t, item, p)
    case PushPublish(item, p) => Publish(st, t, item, p)
    case DrainLoadConsumer(d) => Become(st, t, DrainLoadProducer(d, st.consumer))
    case DrainLoadProducer(d, c) => Become(st, t, if c >= st.producer then Idle(Drained(d)) else DrainWait(d, c))
    case DrainWait(d, c) =>
      Become(st, t, if At(st, c).sequence == c + 1 then DrainCas(d, c) else GiveUp(d, DrainRecheck(d, c)))
    case DrainRecheck(d, c) => Become(st, t, if st.consumer != c then DrainLoadConsumer(d) else DrainWait(d, c))
    case DrainCas(d, c) =>
      if casMayWin && st.consumer == c then Win(st, t, d, c) else Become(st, t, GiveUp(d, DrainLoadConsumer(d)))
    case DrainTake(d, c) => Take(st, t, d, c)
    case DrainCallback(d, c, found) => Deliver(st, t, d, c, found)
    case DrainRelease(d, c) => Release(st, t, d, c)
  }

  /** One step of one thread. A move the thread cannot make leaves the state alone. */
  function Step(st: State, m: Move): (end: State)
    requires |st.slots| > 0
    ensures |end.slots| == |st.slots| && |end.threads| == |st.threads|
  {
    if m.thread >= |st.threads| then st else
    match m.action
    case StartPush(item) =>
      if st.threads[m.thread].Idle? then Become(st, m.thread, PushLoadConsumer(item)) else st
    case StartDrain(helping, batch) =>
      if st.threads[m.thread].Idle? then Become(st, m.thread, NextRound(Drain(helping, batch, 0, 0))) else st
    case Go => ThreadStep(st, m.thread, true)
    case SpuriousFailure => ThreadStep(st, m.thread, false)
  }

  /** The state after a whole schedule. */
  function Run(st: State, schedule: seq<Move>): (end: State)
    requires |st.slots| > 0
    ensures |end.slots| == |st.slots| && |end.threads| == |st.threads|
    decreases |schedule|
  {
    if schedule == [] then st else Run(Step(st, schedule[0]), schedule[1..])
  }

  // ---------------------------------------------------------------------------------------------
  // The invariant
  // ---------------------------------------------------------------------------------------------

  ghost predicate Counters(st: State) {
    && |st.slots| > 0
    && st.consumer <= st.producer <= st.consumer + |st.slots|
    && |st.pushed| == |st.pushers| == st.producer
    && |st.takers| == st.consumer
    && (forall s :: 0 <= s < st.producer ==> st.pushers[s] < |st.threads|)
    && (forall s :: 0 <= s < st.consumer ==> st.takers[s] < |st.threads|)
  }

  ghost predicate InWindow(st: State, s: nat) {
    st.consumer <= s < st.consumer + |st.slots|
  }

  /** The producer that claimed `s` has not published it, and the cell is as it left it. */
  ghost predicate Claimed(pc: Pc, s: nat, item: Item, data: Option<Item>) {
    || (pc == PushWait(item, s) && data == None)
    || (pc == PushWrite(item, s) && data == None)
    || (pc == PushPublish(item, s) && data == Some(item))
  }

  /** The consumer that won `s` has not released it, and the cell is as it left it. */
  ghost predicate Taken(pc: Pc, s: nat, item: Item, data: Option<Item>) {
    || (pc.DrainTake? && pc.c == s && data == Some(item))
    || (pc.DrainCallback? && pc.c == s && data == None)
    || (pc.DrainRelease? && pc.c == s && data == None)
  }

  /**
   The slot of each sequence number in the window is in one of three phases: ready for `s` (claimed
   or not), published, or still held by the consumer of its previous occupant.
   */
  ghost predicate SlotOk(st: State, s: nat)
    requires Counters(st) && InWindow(st, s)
  {
    var slot := At(st, s);
    if slot.sequence == s then
      if s < st.producer then Claimed(st.threads[st.pushers[s]], s, st.pushed[s], slot.data) else slot.data == None
    else if slot.sequence == s + 1 then
      s < st.producer && slot.data == Some(st.pushed[s])
    else
      && s >= |st.slots|
      && slot.sequence == s + 1 - |st.slots|
      && Taken(st.threads[st.takers[s - |st.slots|]], s - |st.slots|, st.pushed[s - |st.slots|], slot.data)
      && (s < st.producer ==> st.threads[st.pushers[s]] == PushWait(st.pushed[s], s))
  }

  ghost predicate Owns(st: State, t: nat, p: nat, item: Item)
    requires Counters(st)
  {
    p < st.producer && st.pushers[p] == t && st.pushed[p] == item
  }

  ghost predicate Holds(st: State, t: nat, c: nat)
    requires Counters(st)
  {
    c < st.consumer <= c + |st.slots| && st.takers[c] == t && At(st, c).sequence == c + 1
  }

  ghost predicate Running(d: Drain) {
    d.wins == d.count < d.batch
  }

  /** What each program counter knows about the claim, the win or the loads it stands on. */
  ghost predicate PcOk(st: State, t: nat, pc: Pc)
    requires Counters(st)
  {
    match pc
    case Idle(Pushed(p, item)) => Owns(st, t, p, item) && (p >= st.consumer ==> At(st, p).sequence == p + 1)
    case Idle(Drained(d)) => d.wins == d.count <= d.batch
    case Idle(_) => true
    case PushLoadConsumer(_) => true
    case PushLoadProducer(_, c) => c <= st.consumer
    case PushCas(_, p) => p <= st.producer && p < st.consumer + |st.slots|
    case PushWait(item, p) => Owns(st, t, p, item) && p >= st.consumer && At(st, p).sequence != p + 1
    case PushWrite(item, p) => Owns(st, t, p, item) && p >= st.consumer && At(st, p).sequence == p
    case PushPublish(item, p) => Owns(st, t, p, item) && p >= st.consumer && At(st, p).sequence == p
    case DrainLoadConsumer(d) => Running(d)
    case DrainLoadProducer(d, c) => Running(d) && c <= st.consumer
    case DrainWait(d, c) => Running(d) && c <= st.consumer && c < st.producer
    case DrainRecheck(d, c) => Running(d) && !d.helping && c <= st.consumer && c < st.producer
    case DrainCas(d, c) =>
      Running(d) && c <= st.consumer && c < st.producer && (c == st.consumer ==> At(st, c).sequence == c + 1)
    case DrainTake(d, c) => d.wins == d.count + 1 && d.count < d.batch && Holds(st, t, c)
    case DrainCallback(d, c, found) =>
      d.wins == d.count + 1 && d.count < d.batch && Holds(st, t, c) && found == Some(st.pushed[c])
    case DrainRelease(d, c) => d.wins == d.count <= d.batch && Holds(st, t, c)
  }

  ghost predicate ThreadOk(st: State, t: nat)
    requires Counters(st) && t < |st.threads|
  {
    PcOk(st, t, st.threads[t])
  }

  /** A won sequence number is undelivered exactly while its winner is before its callback. */
  ghost predicate AwaitsCallback(pc: Pc, c: nat) {
    (pc.DrainTake? || pc.DrainCallback?) && pc.c == c
  }

  /** What was delivered was won, is the pushed item, and is where `position` says. */
  ghost predicate DeliveriesOk(st: State)
    requires Counters(st)
  {
    forall k :: 0 <= k < |st.delivered| ==>
      && st.delivered[k].at in st.position
      && st.position[st.delivered[k].at] == k
      && st.delivered[k].at < st.consumer
      && st.delivered[k].item == st.pushed[st.delivered[k].at]
  }

  ghost predicate PositionsOk(st: State) {
    forall c :: c in st.position ==> st.position[c] < |st.delivered| && st.delivered[st.position[c]].at == c
  }

  ghost predicate PendingOk(st: State)
    requires Counters(st)
  {
    forall c :: 0 <= c < st.consumer ==> (c in st.position <==> !AwaitsCallback(st.threads[st.takers[c]], c))
  }

  ghost predicate History(st: State)
    requires Counters(st)
  {
    DeliveriesOk(st) && PositionsOk(st) && PendingOk(st)
  }

  ghost predicate SlotsOk(st: State)
    requires Counters(st)
  {
    forall s: nat :: InWindow(st, s) ==> SlotOk(st, s)
  }

  ghost predicate ThreadsOk(st: State)
    requires Counters(st)
  {
    forall t: nat :: t < |st.threads| ==> ThreadOk(st, t)
  }

  ghost predicate Invariant(st: State) {
    |st.slots| >= 2 && Counters(st) && SlotsOk(st) && ThreadsOk(st) && History(st)
  }
}
