/** Each kind of step of the hand-off protocol keeps the invariant (core/src/buffer/ring_buffer.rs:128-326). */
module RingSteps {
  import opened SlotIndex
  import opened Wrappers
  import opened RingMachine

  /** A store at a window slot is not seen at any other sequence number of the window. */
  lemma StoreElsewhere(st: State, s: nat, slot: Slot, r: nat)
    requires |st.slots| > 0 && InWindow(st, s) && InWindow(st, r) && r != s
    ensures At(Store(st, s, slot), r) == At(st, r)
  {
    if r < s { IndexInjective(r, s, |st.slots|); } else { IndexInjective(s, r, |st.slots|); }
  }

  /** A sequence number one capacity back shares the slot. */
  lemma SameSlot(st: State, c: nat)
    requires |st.slots| > 0
    ensures At(st, c + |st.slots|) == At(st, c)
    ensures forall slot: Slot :: Store(st, c + |st.slots|, slot) == Store(st, c, slot)
  {
  }

  ghost predicate Unowned(pc: Pc) {
    !(pc.PushWait? || pc.PushWrite? || pc.PushPublish? || pc.DrainTake? || pc.DrainCallback? || pc.DrainRelease?)
  }

  /** The shared memory and the claims are the same; only threads and deliveries may differ. */
  ghost predicate SameShared(st: State, end: State) {
    && end.slots == st.slots && end.producer == st.producer && end.consumer == st.consumer
    && end.pushed == st.pushed && end.pushers == st.pushers && end.takers == st.takers
  }

  lemma SameSharedPc(st: State, end: State, u: nat, pc: Pc)
    requires Counters(st) && Counters(end) && SameShared(st, end) && PcOk(st, u, pc)
    ensures PcOk(end, u, pc)
  {
  }

  /** Both are before the same callback, or neither before any. */
  ghost predicate SameCallback(before: Pc, after: Pc) {
    if before.DrainTake? || before.DrainCallback? then AwaitsCallback(after, before.c)
    else !after.DrainTake? && !after.DrainCallback?
  }

  lemma SamePending(st: State, end: State, t: nat)
    requires Counters(st) && Counters(end) && t < |st.threads| && PendingOk(st)
    requires end.position == st.position && end.consumer == st.consumer && end.takers == st.takers
    requires |end.threads| == |st.threads| && end.threads == st.threads[t := end.threads[t]]
    requires SameCallback(st.threads[t], end.threads[t])
    ensures PendingOk(end)
  {
  }

  /** Nothing but thread `t` changes, and what `t` says about every slot stays what it was. */
  lemma ThreadStepKeeps(st: State, t: nat, pc: Pc)
    requires Invariant(st) && t < |st.threads| && PcOk(st, t, pc)
    requires forall s: nat :: InWindow(st, s) ==> SlotOk(Become(st, t, pc), s)
    requires SameCallback(st.threads[t], pc)
    ensures Invariant(Become(st, t, pc))
  {
    var end := Become(st, t, pc);
    SamePending(st, end, t);
    forall u: nat | u < |end.threads| ensures ThreadOk(end, u) {
      assert ThreadOk(st, u);
      SameSharedPc(st, end, u, end.threads[u]);
    }
  }

  /** A step that only moves a thread between program points that own no slot. */
  lemma LocalStepKeeps(st: State, t: nat, pc: Pc)
    requires Invariant(st) && t < |st.threads|
    requires Unowned(st.threads[t]) && Unowned(pc) && PcOk(st, t, pc)
    ensures Invariant(Become(st, t, pc))
  {
    forall s: nat | InWindow(st, s) ensures SlotOk(Become(st, t, pc), s) {
      assert SlotOk(st, s);
    }
    ThreadStepKeeps(st, t, pc);
  }

  lemma ReadySlot(st: State, t: nat, s: nat)
    requires Counters(st) && t < |st.threads| && ThreadOk(st, t)
    requires st.threads[t].PushWait? && At(st, st.threads[t].p).sequence == st.threads[t].p
    requires InWindow(st, s) && SlotOk(st, s)
    ensures SlotOk(Become(st, t, PushWrite(st.threads[t].item, st.threads[t].p)), s)
  {
  }

  lemma ReadyKeeps(st: State, t: nat)
    requires Invariant(st) && t < |st.threads| && st.threads[t].PushWait?
    requires At(st, st.threads[t].p).sequence == st.threads[t].p
    ensures Invariant(Become(st, t, PushWrite(st.threads[t].item, st.threads[t].p)))
  {
    var pc := st.threads[t];
    assert ThreadOk(st, t);
    forall s: nat | InWindow(st, s) ensures SlotOk(Become(st, t, PushWrite(pc.item, pc.p)), s) {
      ReadySlot(st, t, s);
    }
    ThreadStepKeeps(st, t, PushWrite(pc.item, pc.p));
  }

  lemma ClaimPc(st: State, t: nat, item: Item, u: nat, pc: Pc)
    requires Counters(st) && t < |st.threads| && st.producer < st.consumer + |st.slots|
    requires PcOk(st, u, pc)
    ensures Counters(Claim(st, t, item, st.producer)) && PcOk(Claim(st, t, item, st.producer), u, pc)
  {
  }

  lemma ClaimSlot(st: State, t: nat, item: Item, s: nat)
    requires Counters(st) && t < |st.threads| && Unowned(st.threads[t]) && st.producer < st.consumer + |st.slots|
    requires InWindow(st, s) && SlotOk(st, s)
    ensures Counters(Claim(st, t, item, st.producer)) && SlotOk(Claim(st, t, item, st.producer), s)
  {
  }

  lemma ClaimHistory(st: State, t: nat, item: Item)
    requires Counters(st) && t < |st.threads| && Unowned(st.threads[t]) && History(st)
    requires Counters(Claim(st, t, item, st.producer))
    ensures History(Claim(st, t, item, st.producer))
  {
  }

  lemma ClaimKeeps(st: State, t: nat)
    requires Invariant(st) && t < |st.threads| && st.threads[t].PushCas? && st.threads[t].p == st.producer
    ensures Invariant(Claim(st, t, st.threads[t].item, st.producer))
  {
    var item := st.threads[t].item;
    var end := Claim(st, t, item, st.producer);
    assert ThreadOk(st, t);
    ClaimHistory(st, t, item);
    assert SlotsOk(end) by {
      forall s: nat | InWindow(end, s) ensures SlotOk(end, s) {
        ClaimSlot(st, t, item, s);
      }
    }
    assert ThreadsOk(end) by {
      forall u: nat | u < |end.threads| ensures ThreadOk(end, u) {
        assert ThreadOk(st, u);
        if u == t {
          assert SlotOk(st, st.producer);
        } else {
          ClaimPc(st, t, item, u, st.threads[u]);
        }
      }
    }
  }

  /** The thread does not hold the slot of window member `s`, and cannot tell `slot` from what it waits for. */
  ghost predicate Untouched(st: State, s: nat, slot: Slot, pc: Pc) {
    && (pc.PushWait? && pc.p == s ==> slot.sequence != s + 1)
    && (pc.PushWrite? || pc.PushPublish? ==> pc.p != s)
    && (IsHolding(pc) ==> pc.c + |st.slots| != s)
  }

  lemma StorePushPc(st: State, s: nat, slot: Slot, u: nat, pc: Pc)
    requires Counters(st) && |st.slots| >= 2 && PcOk(st, u, pc) && InWindow(st, s) && At(st, s).sequence != s + 1
    requires (IsPush(pc) || pc.Idle?) && Untouched(st, s, slot, pc)
    ensures PcOk(Store(st, s, slot), u, pc)
  {
    match pc
    case Idle(Pushed(p, _)) => if p >= st.consumer { StoreElsewhere(st, s, slot, p); }
    case PushWait(_, p) => if p != s { StoreElsewhere(st, s, slot, p); }
    case PushWrite(_, p) => StoreElsewhere(st, s, slot, p);
    case PushPublish(_, p) => StoreElsewhere(st, s, slot, p);
    case _ =>
  }

  lemma StoreDrainPc(st: State, s: nat, slot: Slot, u: nat, pc: Pc)
    requires Counters(st) && |st.slots| >= 2 && PcOk(st, u, pc) && InWindow(st, s) && At(st, s).sequence != s + 1
    requires !IsPush(pc) && !pc.Idle? && Untouched(st, s, slot, pc)
    ensures PcOk(Store(st, s, slot), u, pc)
  {
    if IsHolding(pc) {
      StoreHeld(st, s, slot, pc.c);
    } else if pc.DrainCas? && pc.c == st.consumer {
      StoreElsewhere(st, s, slot, pc.c);
    }
  }

  /** What another thread knows survives a store at slot `s` by the thread that holds it. */
  lemma StorePc(st: State, s: nat, slot: Slot, u: nat, pc: Pc)
    requires Counters(st) && |st.slots| >= 2 && PcOk(st, u, pc) && InWindow(st, s) && At(st, s).sequence != s + 1
    requires Untouched(st, s, slot, pc)
    ensures PcOk(Store(st, s, slot), u, pc)
  {
    if IsPush(pc) || pc.Idle? { StorePushPc(st, s, slot, u, pc); } else { StoreDrainPc(st, s, slot, u, pc); }
  }

  lemma StoreHeld(st: State, s: nat, slot: Slot, c: nat)
    requires |st.slots| > 0 && InWindow(st, s) && InWindow(st, c + |st.slots|) && c + |st.slots| != s
    ensures At(Store(st, s, slot), c) == At(st, c)
  {
    StoreElsewhere(st, s, slot, c + |st.slots|);
  }

  /** The program counter that holds the slot of window member `s`. */
  ghost predicate StandsOn(st: State, pc: Pc, s: nat) {
    || ((pc.PushWrite? || pc.PushPublish?) && pc.p == s)
    || ((pc.DrainTake? || pc.DrainRelease?) && pc.c + |st.slots| == s)
  }

  lemma StoreSlotElsewhere(st: State, t: nat, pc: Pc, s: nat, slot: Slot, r: nat)
    requires Counters(st) && t < |st.threads| && StandsOn(st, st.threads[t], s)
    requires InWindow(st, s) && InWindow(st, r) && r != s && SlotOk(st, r)
    ensures SlotOk(Become(Store(st, s, slot), t, pc), r)
  {
    StoreElsewhere(st, s, slot, r);
  }

  /** What the holder of a window slot and another thread know keeps them apart. */
  lemma HolderIsAlone(st: State, t: nat, s: nat, slot: Slot, u: nat)
    requires Counters(st) && |st.slots| >= 2 && t < |st.threads| && u < |st.threads| && u != t
    requires InWindow(st, s) && StandsOn(st, st.threads[t], s)
    requires ThreadOk(st, t) && ThreadOk(st, u)
    requires st.threads[t].DrainTake? || st.threads[t].DrainRelease? ==> slot.sequence != s + 1
    ensures At(st, s).sequence != s + 1 && Untouched(st, s, slot, st.threads[u])
  {
    var pc := st.threads[t];
    assert At(st, s).sequence == (if pc.PushWrite? || pc.PushPublish? then s else s + 1 - |st.slots|);
  }

  /** A step that stores at the slot its thread holds. */
  lemma StoreKeeps(st: State, t: nat, pc: Pc, s: nat, slot: Slot)
    requires Invariant(st) && t < |st.threads| && InWindow(st, s) && StandsOn(st, st.threads[t], s)
    requires st.threads[t].DrainTake? || st.threads[t].DrainRelease? ==> slot.sequence != s + 1
    requires SlotOk(Become(Store(st, s, slot), t, pc), s)
    requires PcOk(Become(Store(st, s, slot), t, pc), t, pc)
    requires SameCallback(st.threads[t], pc)
    ensures Invariant(Become(Store(st, s, slot), t, pc))
  {
    var end := Become(Store(st, s, slot), t, pc);
    SamePending(st, end, t);
    assert SlotsOk(end) by {
      forall r: nat | InWindow(end, r) ensures SlotOk(end, r) {
        if r != s {
          assert SlotOk(st, r);
          StoreSlotElsewhere(st, t, pc, s, slot, r);
        }
      }
    }
    assert ThreadsOk(end) by {
      forall u: nat | u < |end.threads| ensures ThreadOk(end, u) {
        if u != t {
          assert ThreadOk(st, t) && ThreadOk(st, u);
          HolderIsAlone(st, t, s, slot, u);
          StorePc(st, s, slot, u, st.threads[u]);
          SameSharedPc(Store(st, s, slot), end, u, st.threads[u]);
        }
      }
    }
  }

  lemma WriteKeeps(st: State, t: nat)
    requires Invariant(st) && t < |st.threads| && st.threads[t].PushWrite?
    ensures Invariant(Write(st, t, st.threads[t].item, st.threads[t].p))
  {
    var pc := st.threads[t];
    assert ThreadOk(st, t);
    assert SlotOk(st, pc.p);
    StoreKeeps(st, t, PushPublish(pc.item, pc.p), pc.p, At(st, pc.p).(data := Some(pc.item)));
  }

  lemma PublishKeeps(st: State, t: nat)
    requires Invariant(st) && t < |st.threads| && st.threads[t].PushPublish?
    ensures Invariant(Publish(st, t, st.threads[t].item, st.threads[t].p))
  {
    var pc := st.threads[t];
    assert ThreadOk(st, t);
    assert SlotOk(st, pc.p);
    StoreKeeps(st, t, Idle(Pushed(pc.p, pc.item)), pc.p, At(st, pc.p).(sequence := pc.p + 1));
  }

  lemma TakeKeeps(st: State, t: nat)
    requires Invariant(st) && t < |st.threads| && st.threads[t].DrainTake?
    ensures Invariant(Take(st, t, st.threads[t].drain, st.threads[t].c))
  {
    var pc := st.threads[t];
    var s, slot := pc.c + |st.slots|, At(st, pc.c).(data := None);
    assert ThreadOk(st, t);
    assert SlotOk(st, s);
    SameSlot(st, pc.c);
    StoreKeeps(st, t, DrainCallback(pc.drain, pc.c, At(st, pc.c).data), s, slot);
  }

  lemma ReleaseSlot(st: State, t: nat)
    requires Counters(st) && |st.slots| >= 2 && t < |st.threads| && st.threads[t].DrainRelease? && ThreadOk(st, t)
    requires SlotOk(st, st.threads[t].c + |st.slots|)
    ensures var s := st.threads[t].c + |st.slots|;
            var end := Release(st, t, st.threads[t].drain, st.threads[t].c);
            && Counters(end) && SlotOk(end, s) && PcOk(end, t, NextRound(st.threads[t].drain))
            && end == Become(Store(st, s, At(st, s).(sequence := s)), t, NextRound(st.threads[t].drain))
  {
    SameSlot(st, st.threads[t].c);
  }

  lemma ReleaseKeeps(st: State, t: nat)
    requires Invariant(st) && t < |st.threads| && st.threads[t].DrainRelease?
    ensures Invariant(Release(st, t, st.threads[t].drain, st.threads[t].c))
  {
    var s := st.threads[t].c + |st.slots|;
    assert ThreadOk(st, t);
    assert SlotOk(st, s);
    ReleaseSlot(st, t);
    StoreKeeps(st, t, NextRound(st.threads[t].drain), s, At(st, s).(sequence := s));
  }

  lemma WinSlot(st: State, t: nat, d: Drain, s: nat)
    requires Counters(st) && |st.slots| >= 2 && t < |st.threads| && Unowned(st.threads[t]) && st.consumer < st.producer
    requires At(st, st.consumer).sequence == st.consumer + 1
    requires st.consumer < s <= st.consumer + |st.slots|
    requires SlotOk(st, st.consumer)
    requires s < st.consumer + |st.slots| ==> SlotOk(st, s)
    ensures Counters(Win(st, t, d, st.consumer)) && SlotOk(Win(st, t, d, st.consumer), s)
  {
    SameSlot(st, st.consumer);
  }

  lemma WinHolderPc(st: State, t: nat, d: Drain, u: nat, pc: Pc)
    requires Counters(st) && |st.slots| >= 2 && t < |st.threads| && st.consumer < st.producer
    requires At(st, st.consumer).sequence == st.consumer + 1
    requires IsHolding(pc) && PcOk(st, u, pc)
    ensures Counters(Win(st, t, d, st.consumer)) && PcOk(Win(st, t, d, st.consumer), u, pc)
  {
    SameSlot(st, pc.c);
  }

  lemma WinOtherPc(st: State, t: nat, d: Drain, u: nat, pc: Pc)
    requires Counters(st) && t < |st.threads| && st.consumer < st.producer
    requires At(st, st.consumer).sequence == st.consumer + 1
    requires !IsHolding(pc) && PcOk(st, u, pc)
    ensures Counters(Win(st, t, d, st.consumer)) && PcOk(Win(st, t, d, st.consumer), u, pc)
  {
  }

  lemma WinHistory(st: State, t: nat, d: Drain)
    requires Counters(st) && t < |st.threads| && Unowned(st.threads[t]) && History(st)
    requires Counters(Win(st, t, d, st.consumer))
    ensures History(Win(st, t, d, st.consumer))
  {
  }

  lemma WinKeeps(st: State, t: nat)
    requires Invariant(st) && t < |st.threads| && st.threads[t].DrainCas? && st.threads[t].c == st.consumer
    ensures Invariant(Win(st, t, st.threads[t].drain, st.consumer))
  {
    var d := st.threads[t].drain;
    var end := Win(st, t, d, st.consumer);
    assert ThreadOk(st, t);
    assert SlotOk(st, st.consumer);
    WinHistory(st, t, d);
    assert SlotsOk(end) by {
      forall s: nat | InWindow(end, s) ensures SlotOk(end, s) {
        if s < st.consumer + |st.slots| { assert SlotOk(st, s); }
        WinSlot(st, t, d, s);
      }
    }
    assert ThreadsOk(end) by {
      forall u: nat | u < |end.threads| ensures ThreadOk(end, u) {
        if u != t {
          assert ThreadOk(st, u);
          if IsHolding(st.threads[u]) {
            WinHolderPc(st, t, d, u, st.threads[u]);
          } else {
            WinOtherPc(st, t, d, u, st.threads[u]);
          }
        }
      }
    }
  }

  lemma DeliverDeliveries(st: State, c: nat, end: State)
    requires Counters(st) && Counters(end) && DeliveriesOk(st) && c !in st.position && c < st.consumer
    requires end.consumer == st.consumer && end.pushed == st.pushed
    requires end.delivered == st.delivered + [Delivery(c, st.pushed[c])]
    requires end.position == st.position[c := |st.delivered|]
    ensures DeliveriesOk(end)
  {
  }

  lemma DeliverPositions(st: State, c: nat, item: Item, end: State)
    requires PositionsOk(st) && c !in st.position
    requires end.delivered == st.delivered + [Delivery(c, item)] && end.position == st.position[c := |st.delivered|]
    ensures PositionsOk(end)
  {
  }

  lemma DeliverPending(st: State, t: nat, c: nat, end: State)
    requires Counters(st) && Counters(end) && t < |st.threads| && PendingOk(st) && c < st.consumer && st.takers[c] == t
    requires st.threads[t].DrainCallback? && st.threads[t].c == c
    requires |end.threads| == |st.threads| && end.threads == st.threads[t := end.threads[t]]
    requires end.threads[t].DrainRelease?
    requires end.consumer == st.consumer && end.takers == st.takers && end.position.Keys == st.position.Keys + {c}
    ensures PendingOk(end)
  {
  }

  lemma DeliverHistory(st: State, t: nat)
    requires Counters(st) && t < |st.threads| && st.threads[t].DrainCallback? && ThreadOk(st, t) && History(st)
    ensures Counters(Deliver(st, t, st.threads[t].drain, st.threads[t].c, st.threads[t].found))
    ensures History(Deliver(st, t, st.threads[t].drain, st.threads[t].c, st.threads[t].found))
  {
    var c := st.threads[t].c;
    var end := Deliver(st, t, st.threads[t].drain, c, st.threads[t].found);
    assert AwaitsCallback(st.threads[st.takers[c]], c);
    DeliverDeliveries(st, c, end);
    DeliverPositions(st, c, st.pushed[c], end);
    DeliverPending(st, t, c, end);
  }

  lemma DeliverSlot(st: State, t: nat, s: nat)
    requires Counters(st) && t < |st.threads| && st.threads[t].DrainCallback? && ThreadOk(st, t)
    requires InWindow(st, s) && SlotOk(st, s)
    ensures Counters(Deliver(st, t, st.threads[t].drain, st.threads[t].c, st.threads[t].found))
    ensures SlotOk(Deliver(st, t, st.threads[t].drain, st.threads[t].c, st.threads[t].found), s)
  {
  }

  lemma DeliverPc(st: State, t: nat, u: nat)
    requires Counters(st) && t < |st.threads| && st.threads[t].DrainCallback? && ThreadOk(st, t)
    requires u < |st.threads| && ThreadOk(st, u)
    ensures Counters(Deliver(st, t, st.threads[t].drain, st.threads[t].c, st.threads[t].found))
    ensures ThreadOk(Deliver(st, t, st.threads[t].drain, st.threads[t].c, st.threads[t].found), u)
  {
    var end := Deliver(st, t, st.threads[t].drain, st.threads[t].c, st.threads[t].found);
    if u != t { SameSharedPc(st, end, u, st.threads[u]); }
  }

  lemma DeliverKeeps(st: State, t: nat)
    requires Invariant(st) && t < |st.threads| && st.threads[t].DrainCallback?
    ensures Invariant(Deliver(st, t, st.threads[t].drain, st.threads[t].c, st.threads[t].found))
  {
    var end := Deliver(st, t, st.threads[t].drain, st.threads[t].c, st.threads[t].found);
    assert ThreadOk(st, t);
    DeliverHistory(st, t);
    assert SlotsOk(end) by {
      forall s: nat | InWindow(end, s) ensures SlotOk(end, s) {
        DeliverSlot(st, t, s);
      }
    }
    assert ThreadsOk(end) by {
      forall u: nat | u < |end.threads| ensures ThreadOk(end, u) {
        DeliverPc(st, t, u);
      }
    }
  }
}
