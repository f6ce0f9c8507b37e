/** What a consumer, and a helping call, do to the queues when no other thread moves (core/src/lib.rs:172-237). */
module LogAlone {
  import opened LogPath

  /** `n` moves of thread `t`. */
  function Alone(t: nat, n: nat): (schedule: seq<Move>)
    ensures |schedule| == n
  {
    if n == 0 then [] else [Move(t, Go)] + Alone(t, n - 1)
  }

  lemma AloneRuns(st: State, t: nat, n: nat)
    requires Live(st, t) && n > 0
    ensures Run(st, Alone(t, n)) == Run(ThreadStep(st, t, Go), Alone(t, n - 1))
  {
    assert Alone(t, n)[1..] == Alone(t, n - 1);
  }

  /** `n` moves of thread `t` lead from `a` to `b`, whatever it does after. */
  ghost predicate Goes(a: State, t: nat, n: nat, b: State) {
    Live(a, t) && Live(b, t) && forall m: nat :: Run(b, Alone(t, m)) == Run(a, Alone(t, n + m))
  }

  lemma GoesOnce(a: State, t: nat, b: State)
    requires Live(a, t) && b == ThreadStep(a, t, Go)
    ensures Goes(a, t, 1, b)
  {
    forall m: nat ensures Run(b, Alone(t, m)) == Run(a, Alone(t, 1 + m)) {
      AloneRuns(a, t, 1 + m);
    }
  }

  lemma GoesOn(a: State, t: nat, n: nat, b: State, m: nat, c: State)
    requires Goes(a, t, n, b) && Goes(b, t, m, c)
    ensures Goes(a, t, n + m, c)
  {
    forall k: nat ensures Run(c, Alone(t, k)) == Run(a, Alone(t, n + m + k)) {
      assert Run(c, Alone(t, k)) == Run(b, Alone(t, m + k)) == Run(a, Alone(t, n + (m + k)));
      assert n + (m + k) == n + m + k;
    }
  }

  lemma Gone(a: State, t: nat, n: nat, b: State)
    requires Goes(a, t, n, b)
    ensures Run(a, Alone(t, n)) == b
  {
    assert Run(b, Alone(t, 0)) == Run(a, Alone(t, n + 0));
  }

  function Min(a: nat, b: nat): nat {
    if a < b then a else b
  }

  /** The records taken one by one, the last of them on top. */
  function Stacked(s: seq<nat>): (r: seq<nat>)
    ensures |r| == |s|
  {
    if s == [] then [] else Stacked(s[1..]) + [s[0]]
  }

  /** The oldest `k` records of the ring are handled and freed, and thread `t` goes on at `pc`. */
  function Relieved(st: State, k: nat, t: nat, pc: Pc): State
    requires k <= |st.ring| && t < |st.threads|
  {
    Become(st, t, pc).(ring := st.ring[k..], free := Stacked(st.ring[..k]) + st.free, consumed := st.consumed + k)
  }

  lemma RelievedNone(st: State, t: nat, pc: Pc)
    requires t < |st.threads|
    ensures Relieved(st, 0, t, pc) == Become(st, t, pc)
  {
    assert st.ring[..0] == [] && st.ring[0..] == st.ring;
  }

  lemma RelievedMore(st: State, k: nat, t: nat, next: Pc, pc: Pc)
    requires 0 < k <= |st.ring| && t < |st.threads|
    ensures Relieved(Relieved(st, 1, t, next), k - 1, t, pc) == Relieved(st, k, t, pc)
  {
    var s := st.ring;
    assert s[..k][1..] == s[1..][..k - 1] && s[..1][1..] == [] && s[1..][k - 1..] == s[k..];
    assert Stacked(s[..1]) == [s[0]];
    assert Stacked(s[..k]) + st.free == Stacked(s[1..][..k - 1]) + ([s[0]] + st.free);
  }

  lemma DrainsOne(st: State, t: nat, left: nat)
    requires Live(st, t) && st.threads[t] == Draining(left) && left > 0 && st.ring != []
    ensures Goes(st, t, 2, Relieved(st, 1, t, Draining(left - 1)))
  {
    var s1 := Become(st, t, Freeing(st.ring[0], left - 1)).(ring := st.ring[1..]);
    assert Stacked(st.ring[..1]) == [st.ring[0]];
    GoesOnce(st, t, s1);
    GoesOnce(s1, t, Relieved(st, 1, t, Draining(left - 1)));
    GoesOn(st, t, 1, s1, 1, Relieved(st, 1, t, Draining(left - 1)));
  }

  lemma DrainsNone(st: State, t: nat, left: nat)
    requires Live(st, t) && st.threads[t] == Draining(left) && (left == 0 || st.ring == [])
    ensures Goes(st, t, 1, Become(st, t, Idle(Drained)))
  {
    GoesOnce(st, t, Become(st, t, Idle(Drained)));
  }

  lemma {:induction false} AloneDrains(st: State, t: nat, left: nat)
    requires Live(st, t) && st.threads[t] == Draining(left)
    ensures var k := Min(left, |st.ring|);
            Goes(st, t, 2 * k + 1, Relieved(st, k, t, Idle(Drained)))
    decreases left
  {
    var k := Min(left, |st.ring|);
    if k == 0 {
      DrainsNone(st, t, left);
      RelievedNone(st, t, Idle(Drained));
    } else {
      var s2 := Relieved(st, 1, t, Draining(left - 1));
      DrainsOne(st, t, left);
      AloneDrains(s2, t, left - 1);
      assert Min(left - 1, |s2.ring|) == k - 1;
      RelievedMore(st, k, t, Draining(left - 1), Idle(Drained));
      GoesOn(st, t, 2, s2, 2 * (k - 1) + 1, Relieved(st, k, t, Idle(Drained)));
    }
  }

  lemma HelpsOne(st: State, t: nat, i: nat, left: nat, helped: nat)
    requires Live(st, t) && st.threads[t] == Helping(i, left, helped) && left > 0 && st.ring != []
    ensures Goes(st, t, 2, Relieved(st, 1, t, Helping(i, left - 1, helped + 1)))
  {
    var s1 := Become(st, t, HelperFreeing(i, st.ring[0], left - 1, helped + 1)).(ring := st.ring[1..]);
    assert Stacked(st.ring[..1]) == [st.ring[0]];
    GoesOnce(st, t, s1);
    GoesOnce(s1, t, Relieved(st, 1, t, Helping(i, left - 1, helped + 1)));
    GoesOn(st, t, 1, s1, 1, Relieved(st, 1, t, Helping(i, left - 1, helped + 1)));
  }

  lemma HelpsNone(st: State, t: nat, i: nat, left: nat, helped: nat)
    requires Live(st, t) && st.threads[t] == Helping(i, left, helped) && (left == 0 || st.ring == []) && helped > 0
    ensures Goes(st, t, 1, Become(st, t, Retrying(i)))
  {
    GoesOnce(st, t, Become(st, t, Retrying(i)));
  }

  lemma {:induction false} AloneHelps(st: State, t: nat, i: nat, left: nat, helped: nat)
    requires Live(st, t) && st.threads[t] == Helping(i, left, helped) && helped + Min(left, |st.ring|) > 0
    ensures var k := Min(left, |st.ring|);
            Goes(st, t, 2 * k + 1, Relieved(st, k, t, Retrying(i)))
    decreases left
  {
    var k := Min(left, |st.ring|);
    if k == 0 {
      HelpsNone(st, t, i, left, helped);
      RelievedNone(st, t, Retrying(i));
    } else {
      var s2 := Relieved(st, 1, t, Helping(i, left - 1, helped + 1));
      HelpsOne(st, t, i, left, helped);
      AloneHelps(s2, t, i, left - 1, helped + 1);
      assert Min(left - 1, |s2.ring|) == k - 1;
      RelievedMore(st, k, t, Helping(i, left - 1, helped + 1), Retrying(i));
      GoesOn(st, t, 2, s2, 2 * (k - 1) + 1, Relieved(st, k, t, Retrying(i)));
    }
  }

  /** A push that finds the ring full looks at the fill and starts to help. */
  lemma FullStartsHelping(st: State, t: nat, i: nat)
    requires Live(st, t) && st.threads[t] == Pushing(i) && st.config.helping
    requires |st.ring| == st.config.ringCapacity
    ensures Goes(st, t, 2, Become(st, t, Helping(i, 32, 0)))
  {
    var s1 := Become(st, t, CheckingFill(i));
    GoesOnce(st, t, s1);
    GoesOnce(s1, t, Become(st, t, Helping(i, 32, 0)));
    GoesOn(st, t, 1, s1, 1, Become(st, t, Helping(i, 32, 0)));
  }

  lemma RetrySucceeds(st: State, t: nat, i: nat)
    requires Live(st, t) && st.threads[t] == Retrying(i) && |st.ring| < st.config.ringCapacity
    ensures Goes(st, t, 1, Accept(st.(ring := st.ring + [i]), t))
  {
    GoesOnce(st, t, Accept(st.(ring := st.ring + [i]), t));
  }

  /** What the call described below leaves behind. */
  function Relief(st: State, t: nat, i: nat, k: nat): State
    requires Live(st, t) && k <= |st.ring|
  {
    var s3 := Relieved(st, k, t, Retrying(i));
    Accept(s3.(ring := s3.ring + [i]), t)
  }

  lemma HelpThenPush(st: State, t: nat, i: nat)
    requires Live(st, t) && st.threads[t] == Helping(i, 32, 0)
    requires |st.ring| == st.config.ringCapacity > 0
    ensures var k := Min(32, |st.ring|); Goes(st, t, 2 * k + 1 + 1, Relief(st, t, i, k))
  {
    var k := Min(32, |st.ring|);
    var s3 := Relieved(st, k, t, Retrying(i));
    AloneHelps(st, t, i, 32, 0);
    RetrySucceeds(s3, t, i);
    GoesOn(st, t, 2 * k + 1, s3, 1, Relief(st, t, i, k));
  }

  lemma FullThenHelps(st: State, t: nat, i: nat)
    requires Live(st, t) && st.threads[t] == Pushing(i) && st.config.helping
    requires |st.ring| == st.config.ringCapacity > 0
    ensures var k := Min(32, |st.ring|);
            Run(st, Alone(t, 2 * k + 4)) == Relief(Become(st, t, Helping(i, 32, 0)), t, i, k)
  {
    var k := Min(32, |st.ring|);
    var s2 := Become(st, t, Helping(i, 32, 0));
    FullStartsHelping(st, t, i);
    HelpThenPush(s2, t, i);
    GoesOn(st, t, 2, s2, 2 * k + 1 + 1, Relief(s2, t, i, k));
    Gone(st, t, 2 * k + 4, Relief(s2, t, i, k));
  }

  /**
   With helping, a call that finds the ring full and is left alone hands the 32 oldest records, or all if there are
   fewer, to the consumer's callback, puts its own record behind the rest and succeeds: it drops nothing.
   */
  lemma FullRingIsRelieved(st: State, t: nat, i: nat)
    requires Live(st, t) && st.threads[t] == Pushing(i) && st.config.helping
    requires |st.ring| == st.config.ringCapacity > 0
    ensures var k := if |st.ring| < 32 then |st.ring| else 32;
            var end := Run(st, Alone(t, 2 * k + 4));
            && end.threads == st.threads[t := Idle(Success)] && end.ring == st.ring[k..] + [i]
            && end.free == Stacked(st.ring[..k]) + st.free && end.consumed == st.consumed + k
            && end.stats == st.stats.(accepted := st.stats.accepted + 1) && end.audit == st.audit
  {
    var k := Min(32, |st.ring|);
    FullThenHelps(st, t, i);
    assert Become(st, t, Helping(i, 32, 0)).ring == st.ring;
  }

  /** A consumer left alone takes the oldest records of the ring, as many as its batch allows, and frees them. */
  lemma ConsumerTakesOldest(st: State, t: nat, batch: nat)
    requires Live(st, t) && st.threads[t].Idle?
    ensures var k := if |st.ring| < batch then |st.ring| else batch;
            var end := Run(Step(st, Move(t, Consume(batch))), Alone(t, 2 * k + 1));
            && end.threads == st.threads[t := Idle(Drained)] && end.ring == st.ring[k..]
            && end.free == Stacked(st.ring[..k]) + st.free && end.consumed == st.consumed + k
            && end.stats == st.stats && end.audit == st.audit
  {
    var k := Min(batch, |st.ring|);
    var s1 := Start(st, t, Draining(batch));
    AloneDrains(s1, t, batch);
    Gone(s1, t, 2 * k + 1, Relieved(s1, k, t, Idle(Drained)));
  }
}
