/** What the free stack guarantees, and exactly when an alloc's CAS breaks it. */
module PoolTheorems {
  import opened Wrappers
  import opened PoolMachine
  import opened PoolSteps

  /** Some disciplined schedule of some number of threads on a fresh pool leads to `st`. */
  ghost predicate Reachable(st: State) {
    |st.next| == |st.place| > 0 &&
    exists threads, schedule ::
      var init := Init(|st.place|, threads); Disciplined(init, schedule) && Run(init, schedule) == st
  }

  lemma ReachableOk(st: State)
    requires Reachable(st)
    ensures Invariant(st) && OneWindow(st)
  {
    var threads, schedule :|
      var init := Init(|st.place|, threads); Disciplined(init, schedule) && Run(init, schedule) == st;
    InitOk(|st.place|, threads);
    RunKeeps(Init(|st.place|, threads), schedule);
  }

  /**
   With at most one alloc window open and any number of concurrent frees: the list from `head` is
   finite, repeats nothing and holds exactly the records in nobody's hands; a record in a call's
   hands is in the hands of that call only; and the records on the list are as reset.
   */
  lemma PoolPartition(st: State)
    requires Reachable(st)
    ensures IsList(st.head, st.next, st.free)
    ensures forall i :: 0 <= i < |st.place| ==> (st.place[i] == InPool <==> i in st.free)
    ensures forall i: nat, t: nat :: i < |st.place| && t < |st.threads| ==>
              (st.place[i] == Call(t) <==> Holds(st.threads[t], i))
    ensures forall i :: i in st.free ==> i !in st.dirty
  {
    ReachableOk(st);
    forall i: nat, t: nat | i < |st.place| && t < |st.threads|
      ensures st.place[i] == Call(t) <==> Holds(st.threads[t], i)
    {
      assert PlaceOk(st, i) && CallOk(st, t, st.threads[t]);
    }
    forall i: nat | i in st.free ensures i !in st.dirty {
      var k :| 0 <= k < |st.free| && st.free[k] == i;
      assert PlaceOk(st, i);
    }
  }

  lemma ReturnIsTruthful(st: State, t: nat, casMayWin: bool)
    requires Core(st) && t < |st.threads| && !st.threads[t].Idle? && ThreadStep(st, t, casMayWin).threads[t].Idle?
    ensures match ThreadStep(st, t, casMayWin).threads[t].last
            case Exhausted => st.free == []
            case Allocated(i) =>
              && i < |st.place| && st.place[i] == Call(t) && ThreadStep(st, t, casMayWin).place[i] == Caller
              && i !in st.dirty && i !in st.free
            case Freed(i) => ThreadStep(st, t, casMayWin).frees == st.frees + 1
            case NotCalled => false
  {
    assert CallOk(st, t, st.threads[t]);
  }

  /** An alloc hands out a reset record that was in no other hands, and fails only on an empty free list. */
  lemma AllocIsTruthful(st: State, m: Move)
    requires Reachable(st) && m.thread < |st.threads|
    requires !st.threads[m.thread].Idle? && Step(st, m).threads[m.thread].Idle?
    ensures match Step(st, m).threads[m.thread].last
            case Exhausted => st.free == []
            case Allocated(i) =>
              && i < |st.place| && st.place[i] == Call(m.thread) && Step(st, m).place[i] == Caller
              && i !in st.dirty && i !in st.free
            case Freed(i) => Step(st, m).frees == st.frees + 1
            case NotCalled => false
  {
    ReachableOk(st);
    ReturnIsTruthful(st, m.thread, m.action.Go?);
  }

  /** The counters' difference, clamped at zero on both subtractions. */
  function Available(st: State): nat {
    SaturatingSub(|st.next|, SaturatingSub(st.allocs, st.frees))
  }

  /** With no call between its CAS and its count, `available` is the length of the free list. */
  lemma AvailableIsExactWhenCounted(st: State)
    requires Reachable(st)
    requires forall t :: 0 <= t < |st.threads| ==> !st.threads[t].AllocCount? && !st.threads[t].FreeCount?
    ensures Available(st) == |st.free| <= |st.place|
  {
    ReachableOk(st);
    IdleLag(st.threads);
    DistinctBelow(st.free, |st.place|);
  }

  // ---------------------------------------------------------------------------------------------
  // Overlapping allocs
  // ---------------------------------------------------------------------------------------------

  /** A list is determined by its head and the links. */
  lemma {:induction false} ListUnique(head: Option<nat>, next: seq<Option<nat>>, a: seq<nat>, b: seq<nat>)
    requires IsList(head, next, a) && IsList(head, next, b)
    ensures a == b
    decreases |a|
  {
    if a != [] {
      assert b != [] && a[0] == b[0];
      Tail(head, next, a);
      Tail(head, next, b);
      ListUnique(next[a[0]], next, a[1..], b[1..]);
      assert a == [a[0]] + a[1..] && b == [b[0]] + b[1..];
    }
  }

  lemma Tail(head: Option<nat>, next: seq<Option<nat>>, list: seq<nat>)
    requires IsList(head, next, list) && list != []
    ensures list[0] < |next| && IsList(next[list[0]], next, list[1..])
  {
    forall k | 0 <= k < |list| - 1 ensures next[list[1..][k]] == First(list[1..][k + 1..]) {
      assert list[k + 1 + 1..] == list[1..][k + 1..];
    }
  }

  /** The suffix of a list from any of its members is the list from that member. */
  lemma {:induction false} Suffix(head: Option<nat>, next: seq<Option<nat>>, list: seq<nat>, k: nat)
    requires IsList(head, next, list) && k <= |list|
    ensures IsList(First(list[k..]), next, list[k..])
    decreases k
  {
    if k == 0 {
      assert list[0..] == list;
    } else {
      Tail(head, next, list);
      Suffix(next[list[0]], next, list[1..], k - 1);
      assert list[1..][k - 1..] == list[k..];
    }
  }

  /**
   In a state whose list is intact, a won alloc CAS leaves a list of exactly the records in nobody's hands if and
   only if the link the alloc loaded is still the link of the head it replaces.
   */
  lemma AllocCasIsSafeExactlyOnAFreshLink(st: State, t: nat)
    requires Core(st) && t < |st.threads| && st.threads[t].AllocCas? && st.head == Some(st.threads[t].h)
    ensures st.threads[t].h < |st.next|
    ensures (exists list :: Partitioned(ThreadStep(st, t, true), list)) <==>
              st.next[st.threads[t].h] == st.threads[t].next
  {
    var h, n := st.threads[t].h, st.threads[t].next;
    var end := ThreadStep(st, t, true);
    PopList(st);
    if st.next[h] == n {
      PopKeepsCore(st, t);
      assert Partitioned(end, end.free);
    } else {
      forall list ensures !Partitioned(end, list) {
        if Partitioned(end, list) { SameMembers(st, t, list); }
      }
    }
  }

  /** Two lists over the same links with the same members have the same head. */
  lemma SameMembersSameHead(a: Option<nat>, b: Option<nat>, next: seq<Option<nat>>, xs: seq<nat>, ys: seq<nat>)
    requires IsList(a, next, xs) && IsList(b, next, ys)
    requires forall i :: i in xs <==> i in ys
    ensures a == b
    decreases if xs == [] then 1 else 0
  {
    if xs != [] {
      assert xs[0] in xs;
      assert xs[0] in ys;
      var k :| 0 <= k < |ys| && ys[k] == xs[0];
      Suffix(b, next, ys, k);
      ListUnique(a, next, xs, ys[k..]);
      assert ys[0] in ys;
      assert ys[0] in ys[k..];
      var j :| 0 <= j < |ys[k..]| && ys[k..][j] == ys[0];
      assert ys[k + j] == ys[0];
    } else if ys != [] {
      SameMembersSameHead(b, a, next, ys, xs);
    }
  }

  /** A list of the right records after the CAS can only be the old list without its head. */
  lemma SameMembers(st: State, t: nat, list: seq<nat>)
    requires Core(st) && t < |st.threads| && st.threads[t].AllocCas? && st.head == Some(st.threads[t].h)
    requires st.threads[t].h < |st.next| && Partitioned(ThreadStep(st, t, true), list)
    ensures st.next[st.threads[t].h] == st.threads[t].next
  {
    var h, end := st.threads[t].h, ThreadStep(st, t, true);
    PopList(st);
    forall i: nat ensures i in list <==> i in st.free[1..] {
      if i < |st.place| {
        assert end.place[i] == InPool <==> i in list;
        assert st.place[i] == InPool <==> i in st.free;
      }
    }
    SameMembersSameHead(st.threads[t].next, st.next[h], st.next, list, st.free[1..]);
  }

  // Over whole runs

  /** The move wins an alloc CAS. */
  ghost predicate WinsAlloc(st: State, m: Move) {
    m.thread < |st.threads| && m.action.Go? && st.threads[m.thread].AllocCas? && st.head == Some(st.threads[m.thread].h)
  }

  /** If the move wins an alloc CAS, the link it loaded is still the head's link. */
  ghost predicate OnFreshLink(st: State, m: Move) {
    WinsAlloc(st, m) ==>
      var pc := st.threads[m.thread];
      pc.h < |st.next| && st.next[pc.h] == pc.next
  }

  lemma AllocStepKeepsCore(st: State, t: nat, casMayWin: bool)
    requires Core(st) && t < |st.threads| && IsAlloc(st.threads[t])
    requires casMayWin && st.threads[t].AllocCas? && st.head == Some(st.threads[t].h) ==>
               st.threads[t].h < |st.next| && st.next[st.threads[t].h] == st.threads[t].next
    ensures Core(ThreadStep(st, t, casMayWin))
  {
    assert CallOk(st, t, st.threads[t]);
    match st.threads[t]
    case AllocLoad =>
      var pc := if st.head == None then Idle(Exhausted) else AllocNext(st.head.value);
      LocalStepKeepsCore(st, t, pc, st.allocs, st.frees);
    case AllocNext(h) =>
      if h < |st.next| { LocalStepKeepsCore(st, t, AllocCas(h, st.next[h]), st.allocs, st.frees); }
    case AllocCas(h, _) =>
      if casMayWin && st.head == Some(h) {
        PopKeepsCore(st, t);
      } else {
        LocalStepKeepsCore(st, t, AllocLoad, st.allocs, st.frees);
      }
    case AllocCount(i) => HandOverKeepsCore(st, t, i, Idle(Allocated(i)), Caller, st.allocs + 1);
  }

  lemma FreeStepKeepsCore(st: State, t: nat, casMayWin: bool)
    requires Core(st) && t < |st.threads| && !IsAlloc(st.threads[t])
    ensures Core(ThreadStep(st, t, casMayWin))
  {
    assert CallOk(st, t, st.threads[t]);
    match st.threads[t]
    case Idle(_) =>
    case FreeReset(i) => DirtyKeepsCore(st, st.dirty - {i}, t, FreeLoad(i));
    case FreeLoad(i) => LocalStepKeepsCore(st, t, FreeLink(i, st.head), st.allocs, st.frees);
    case FreeLink(_, _) => LinkKeepsCore(st, t);
    case FreeCas(i, h) =>
      if casMayWin && st.head == h {
        PushKeepsCore(st, t);
      } else {
        LocalStepKeepsCore(st, t, FreeLoad(i), st.allocs, st.frees);
      }
    case FreeCount(i) => LocalStepKeepsCore(st, t, Idle(Freed(i)), st.allocs, st.frees + 1);
  }

  lemma StartFreeKeepsCore(st: State, t: nat, i: nat)
    requires Core(st)
    ensures Core(Step(st, Move(t, StartFree(i))))
  {
    if t < |st.threads| && st.threads[t].Idle? && i < |st.place| && st.place[i] == Caller {
      HandOverKeepsCore(st, t, i, FreeReset(i), Call(t), st.allocs);
    }
  }

  lemma TouchKeepsCore(st: State, t: nat, i: nat)
    requires Core(st)
    ensures Core(Step(st, Move(t, Touch(i))))
  {
    if t < |st.threads| && i < |st.place| && st.place[i] == Caller {
      assert CallOk(st, t, st.threads[t]);
      DirtyKeepsCore(st, st.dirty + {i}, t, st.threads[t]);
      assert st.threads[t := st.threads[t]] == st.threads;
    }
  }

  /**
   However many allocs overlap, every move keeps list, places and calls in order unless it wins an alloc CAS on a
   stale link.
   */
  lemma FreshMoveKeepsCore(st: State, m: Move)
    requires Core(st) && OnFreshLink(st, m)
    ensures Core(Step(st, m))
  {
    if m.thread < |st.threads| {
      var pc := st.threads[m.thread];
      match m.action
      case StartAlloc => if pc.Idle? { LocalStepKeepsCore(st, m.thread, AllocLoad, st.allocs, st.frees); }
      case StartFree(i) => StartFreeKeepsCore(st, m.thread, i);
      case Touch(i) => TouchKeepsCore(st, m.thread, i);
      case Go =>
        if IsAlloc(pc) {
          AllocStepKeepsCore(st, m.thread, true);
        } else {
          FreeStepKeepsCore(st, m.thread, true);
        }
      case SpuriousFailure =>
        if IsAlloc(pc) {
          AllocStepKeepsCore(st, m.thread, false);
        } else {
          FreeStepKeepsCore(st, m.thread, false);
        }
    }
  }

  /** Every alloc CAS won along the schedule is on a fresh link. */
  ghost predicate Fresh(st: State, schedule: seq<Move>)
    requires |st.next| == |st.place|
    decreases |schedule|
  {
    schedule == [] || (OnFreshLink(st, schedule[0]) && Fresh(Step(st, schedule[0]), schedule[1..]))
  }

  /** Some list from the head holds exactly the records in nobody's hands. */
  ghost predicate Intact(st: State) {
    exists list :: Partitioned(st, list)
  }

  ghost predicate IntactAlong(st: State, schedule: seq<Move>)
    requires |st.next| == |st.place|
    decreases |schedule|
  {
    Intact(st) && (schedule == [] || IntactAlong(Step(st, schedule[0]), schedule[1..]))
  }

  lemma {:induction false} IntactAlongExactlyWhenFresh(st: State, schedule: seq<Move>)
    requires Core(st)
    ensures IntactAlong(st, schedule) <==> Fresh(st, schedule)
    decreases |schedule|
  {
    assert Partitioned(st, st.free);
    if schedule != [] {
      var m := schedule[0];
      if OnFreshLink(st, m) {
        FreshMoveKeepsCore(st, m);
        IntactAlongExactlyWhenFresh(Step(st, m), schedule[1..]);
      } else {
        AllocCasIsSafeExactlyOnAFreshLink(st, m.thread);
      }
    }
  }

  /**
   In a run of any number of threads, with any overlap of allocs and frees, the free list is intact all along if and
   only if every alloc CAS that wins finds its link fresh.
   */
  lemma ListIntactExactlyWhenLinksFresh(capacity: nat, threads: nat, schedule: seq<Move>)
    requires capacity > 0
    ensures IntactAlong(Init(capacity, threads), schedule) <==> Fresh(Init(capacity, threads), schedule)
  {
    InitOk(capacity, threads);
    IntactAlongExactlyWhenFresh(Init(capacity, threads), schedule);
  }

  /** With one alloc window at a time every link is fresh. */
  lemma {:induction false} DisciplinedIsFresh(st: State, schedule: seq<Move>)
    requires Invariant(st) && Disciplined(st, schedule)
    ensures Fresh(st, schedule)
    decreases |schedule|
  {
    if schedule != [] {
      if schedule[0].thread < |st.threads| { assert WindowOk(st, st.threads[schedule[0].thread]); }
      StepKeeps(st, schedule[0]);
      DisciplinedIsFresh(Step(st, schedule[0]), schedule[1..]);
    }
  }

  /** Some schedule, disciplined or not, leads from `a` to `b`. */
  ghost predicate Leads(a: State, b: State) {
    |a.next| == |a.place| && exists schedule :: Run(a, schedule) == b
  }

  lemma {:induction false} RunThenStep(a: State, schedule: seq<Move>, m: Move)
    requires |a.next| == |a.place|
    ensures Run(a, schedule + [m]) == Step(Run(a, schedule), m)
    decreases |schedule|
  {
    if schedule == [] {
      assert schedule + [m] == [m] && [m][1..] == [];
      assert Run(a, [m]) == Run(Step(a, m), []);
    } else {
      assert (schedule + [m])[1..] == schedule[1..] + [m];
      RunThenStep(Step(a, schedule[0]), schedule[1..], m);
    }
  }

  lemma LeadsOn(a: State, b: State, m: Move, next: State)
    requires Leads(a, b) && |b.next| == |b.place| && Step(b, m) == next
    ensures Leads(a, next)
  {
    var schedule :| Run(a, schedule) == b;
    RunThenStep(a, schedule, m);
  }

  /** An alloc that has loaded the head record and its link. */
  lemma AllocLoads(a: State, st: State, t: nat)
    requires Leads(a, st) && |st.next| == |st.place| && t < |st.threads| && st.threads[t].Idle?
    requires st.head.Some? && st.head.value < |st.next|
    ensures Leads(a, Become(st, t, AllocCas(st.head.value, st.next[st.head.value])))
  {
    var h := st.head.value;
    var s0 := Become(st, t, AllocLoad);
    LeadsOn(a, st, Move(t, StartAlloc), s0);
    var s1 := Become(st, t, AllocNext(h));
    LeadsOn(a, s0, Move(t, Go), s1);
    LeadsOn(a, s1, Move(t, Go), Become(st, t, AllocCas(h, st.next[h])));
  }

  /** An uninterrupted alloc of the head record. */
  lemma AllocAlone(a: State, st: State, t: nat) returns (end: State)
    requires Leads(a, st) && |st.next| == |st.place| && t < |st.threads| && st.threads[t].Idle?
    requires st.head.Some? && st.head.value < |st.next|
    ensures Leads(a, end)
    ensures var h := st.head.value;
            end == Become(st, t, Idle(Allocated(h))).(
              head := st.next[h], free := if st.free == [] then [] else st.free[1..],
              place := st.place[h := Caller], allocs := st.allocs + 1)
  {
    var h := st.head.value;
    AllocLoads(a, st, t);
    var s2 := Become(st, t, AllocCas(h, st.next[h]));
    var s3 := Pop(s2, t, h, st.next[h]);
    LeadsOn(a, s2, Move(t, Go), s3);
    end := Become(s3, t, Idle(Allocated(h))).(allocs := s3.allocs + 1, place := s3.place[h := Caller]);
    LeadsOn(a, s3, Move(t, Go), end);
  }

  /** A free that has reset its record and linked it to the head. */
  lemma FreeLinks(a: State, st: State, t: nat, i: nat) returns (end: State)
    requires Leads(a, st) && |st.next| == |st.place| && t < |st.threads| && st.threads[t].Idle?
    requires i < |st.place| && st.place[i] == Caller
    ensures Leads(a, end)
    ensures end == Become(st, t, FreeCas(i, st.head)).(
              next := st.next[i := st.head], place := st.place[i := Call(t)], dirty := st.dirty - {i})
  {
    var s0 := Become(st, t, FreeReset(i)).(place := st.place[i := Call(t)]);
    LeadsOn(a, st, Move(t, StartFree(i)), s0);
    var s1 := Become(s0, t, FreeLoad(i)).(dirty := st.dirty - {i});
    LeadsOn(a, s0, Move(t, Go), s1);
    var s2 := Become(s1, t, FreeLink(i, st.head));
    LeadsOn(a, s1, Move(t, Go), s2);
    end := Become(s2, t, FreeCas(i, st.head)).(next := st.next[i := st.head]);
    LeadsOn(a, s2, Move(t, Go), end);
  }

  /** An uninterrupted free. */
  lemma FreeAlone(a: State, st: State, t: nat, i: nat) returns (end: State)
    requires Leads(a, st) && |st.next| == |st.place| && t < |st.threads| && st.threads[t].Idle?
    requires i < |st.place| && st.place[i] == Caller
    ensures Leads(a, end)
    ensures end == Become(st, t, Idle(Freed(i))).(
              head := Some(i), next := st.next[i := st.head], free := [i] + st.free,
              place := st.place[i := InPool], dirty := st.dirty - {i}, frees := st.frees + 1)
  {
    var s3 := FreeLinks(a, st, t, i);
    var s4 := Push(s3, t, i);
    LeadsOn(a, s3, Move(t, Go), s4);
    end := Become(s4, t, Idle(Freed(i))).(frees := s4.frees + 1);
    LeadsOn(a, s4, Move(t, Go), end);
  }

  /** Thread 0 has loaded the head and its link, and then stops. */
  lemma OpenWindow() returns (st: State)
    ensures Leads(Init(3, 2), st) && st == Become(Init(3, 2), 0, AllocCas(0, Some(1)))
  {
    assert Run(Init(3, 2), []) == Init(3, 2);
    AllocLoads(Init(3, 2), Init(3, 2), 0);
    st := Become(Init(3, 2), 0, AllocCas(0, Some(1)));
  }

  /** Meanwhile thread 1 allocates records 0 and 1 and frees record 0. */
  lemma WindowOutlived() returns (st: State)
    ensures Leads(Init(3, 2), st) && |st.next| == |st.place| == 3 && |st.threads| == 2
    ensures st.threads[0] == AllocCas(0, Some(1)) && st.head == Some(0) && st.place[1] == Caller
  {
    var s0 := Init(3, 2);
    var s3 := OpenWindow();
    var s4 := AllocAlone(s0, s3, 1);
    assert s4.threads == [AllocCas(0, Some(1)), Idle(Allocated(0))] && s4.next == s0.next;
    var s5 := AllocAlone(s0, s4, 1);
    st := FreeAlone(s0, s5, 1, 0);
  }

  /**
   Two overlapping allocs: thread 0 has loaded head 0 and link 1 when thread 1 allocates 0 and 1 and
   frees 0. The CAS of thread 0 then wins and makes record 1, which a caller owns, the head.
   */
  lemma OverlappingAllocsBreakTheList() returns (st: State)
    ensures Leads(Init(3, 2), st) && |st.next| == |st.place| == 3
    ensures st.head == Some(1) && st.place[1] == Caller
    ensures forall list :: !Partitioned(st, list)
  {
    var outlived := WindowOutlived();
    st := Pop(outlived, 0, 0, Some(1));
    LeadsOn(Init(3, 2), outlived, Move(0, Go), st);
    forall list ensures !Partitioned(st, list) {
      assert list != [] && list[0] == 1 ==> 1 in list;
    }
  }
}
