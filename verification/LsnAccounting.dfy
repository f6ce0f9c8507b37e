/**
 LSN continuity as `verify-log` and `recovery-report` account for it
 (cli/src/commands/verify.rs:239-244, 402-440, 604-625, 1098-1185, 1228-1262).
 */
module LsnAccounting {

  const U64_MAX: nat := 0xFFFF_FFFF_FFFF_FFFF

  type Lsn = x: nat | x <= U64_MAX

  function Successor(x: Lsn): Lsn {
    if x == U64_MAX then x else x + 1
  }

  ghost predicate Sorted(s: seq<Lsn>) {
    forall j, k :: 0 <= j < k < |s| ==> s[j] <= s[k]
  }

  predicate Follows(prev: nat, next: nat) {
    next == prev + 1
  }

  /** Each entry is one more than the one before. */
  ghost predicate Consecutive(s: seq<Lsn>) {
    forall k :: 0 < k < |s| ==> Follows(s[k - 1], s[k])
  }

  /** The links that do not increase, and the ranges that are skipped, in order. */
  function Broken(s: seq<Lsn>): nat {
    if |s| < 2 then 0 else Broken(s[..|s| - 1]) + (if s[|s| - 1] <= s[|s| - 2] then 1 else 0)
  }

  function Gaps(s: seq<Lsn>): seq<(nat, nat)> {
    if |s| < 2 then []
    else
      var expected := Successor(s[|s| - 2]);
      Gaps(s[..|s| - 1]) + (if s[|s| - 1] > expected then [(expected, s[|s| - 1] - 1)] else [])
  }

  function Missing(gaps: seq<(nat, nat)>): int {
    if gaps == [] then 0 else Missing(gaps[..|gaps| - 1]) + gaps[|gaps| - 1].1 - gaps[|gaps| - 1].0 + 1
  }

  lemma MissingAppend(gaps: seq<(nat, nat)>, gap: (nat, nat))
    ensures Missing(gaps + [gap]) == Missing(gaps) + gap.1 - gap.0 + 1
  {
    assert (gaps + [gap])[..|gaps|] == gaps;
  }

  /** The continuity check: link by link, as both commands and both of their formats run it. */
  method CheckContinuity(sorted: seq<Lsn>) returns (valid: nat, broken: nat, gaps: seq<(nat, nat)>)
    ensures broken == Broken(sorted) && gaps == Gaps(sorted)
    ensures valid + broken == if sorted == [] then 0 else |sorted| - 1
  {
    valid, broken, gaps := 0, 0, [];
    var i := 1;
    while i < |sorted|
      invariant 1 <= i && (sorted == [] || i <= |sorted|)
      invariant sorted != [] ==> broken == Broken(sorted[..i]) && gaps == Gaps(sorted[..i]) && valid + broken == i - 1
      invariant sorted == [] ==> valid == broken == 0 && gaps == []
    {
      var prev, next := sorted[i - 1], sorted[i];
      assert sorted[..i + 1][..i] == sorted[..i];
      if next <= prev {
        broken := broken + 1;
      } else {
        valid := valid + 1;
      }
      var expected := Successor(prev);
      if next > expected {
        gaps := gaps + [(expected, next - 1)];
      } else {
        assert gaps + [] == gaps;
      }
      i := i + 1;
    }
    if sorted != [] { assert sorted[..|sorted|] == sorted; }
  }

  /** The JSON formats count gaps and missing records instead of listing the gaps. */
  method CountContinuity(sorted: seq<Lsn>) returns (broken: nat, gapCount: nat, missing: int)
    ensures broken == Broken(sorted) && gapCount == |Gaps(sorted)| && missing == Missing(Gaps(sorted))
  {
    broken, gapCount, missing := 0, 0, 0;
    var i := 1;
    while i < |sorted|
      invariant 1 <= i && (sorted == [] || i <= |sorted|)
      invariant sorted != [] ==>
                  && broken == Broken(sorted[..i]) && gapCount == |Gaps(sorted[..i])|
                  && missing == Missing(Gaps(sorted[..i]))
      invariant sorted == [] ==> broken == gapCount == 0 && missing == 0
    {
      var prev, next := sorted[i - 1], sorted[i];
      assert sorted[..i + 1][..i] == sorted[..i];
      var expected := Successor(prev);
      if next > expected {
        MissingAppend(Gaps(sorted[..i]), (expected, next - 1));
        gapCount := gapCount + 1;
        missing := missing + (next - expected);
      } else {
        assert Gaps(sorted[..i]) + [] == Gaps(sorted[..i]);
      }
      if next <= prev {
        broken := broken + 1;
      }
      i := i + 1;
    }
    if sorted != [] { assert sorted[..|sorted|] == sorted; }
  }

  // ---------------------------------------------------------------------------------------------
  // What the numbers mean
  // ---------------------------------------------------------------------------------------------

  /** Without a sidecar a log passes exactly when its LSNs are one consecutive run without duplicates. */
  lemma {:induction false} PassesExactlyWhenConsecutive(s: seq<Lsn>)
    requires Sorted(s)
    ensures Broken(s) == 0 && Gaps(s) == [] <==> Consecutive(s)
  {
    if |s| >= 2 {
      var init := s[..|s| - 1];
      PassesExactlyWhenConsecutive(init);
      assert s[|s| - 2] <= s[|s| - 1];
      if Consecutive(s) {
        assert Follows(s[|s| - 1 - 1], s[|s| - 1]);
      } else if Consecutive(init) {
        assert forall k :: 0 < k < |init| ==> Follows(s[k - 1], s[k]) == Follows(init[k - 1], init[k]);
      }
    }
  }

  ghost predicate InGap(gaps: seq<(nat, nat)>, x: nat) {
    gaps != [] && (gaps[|gaps| - 1].0 <= x <= gaps[|gaps| - 1].1 || InGap(gaps[..|gaps| - 1], x))
  }

  lemma {:induction false} InGapMeansInOne(gaps: seq<(nat, nat)>, x: nat)
    ensures InGap(gaps, x) <==> exists k :: 0 <= k < |gaps| && gaps[k].0 <= x <= gaps[k].1
  {
    if gaps != [] {
      var init := gaps[..|gaps| - 1];
      InGapMeansInOne(init, x);
      assert forall k :: 0 <= k < |init| ==> init[k] == gaps[k];
    }
  }

  /** The gaps are non-empty, in order and disjoint, and stay below the last LSN. */
  lemma {:induction false} GapsAreDisjoint(s: seq<Lsn>)
    requires Sorted(s) && s != []
    ensures forall k :: 0 <= k < |Gaps(s)| ==> s[0] < Gaps(s)[k].0 <= Gaps(s)[k].1 < s[|s| - 1]
    ensures forall j, k :: 0 <= j < k < |Gaps(s)| ==> Gaps(s)[j].1 < Gaps(s)[k].0
  {
    if |s| >= 2 {
      GapsAreDisjoint(s[..|s| - 1]);
      assert s[0] <= s[|s| - 2] <= s[|s| - 1];
    }
  }

  /** The gaps are exactly the absent LSNs between the first and the last. */
  lemma GapsAreExactlyTheAbsent(s: seq<Lsn>, x: nat)
    requires Sorted(s) && s != []
    ensures (exists k :: 0 <= k < |Gaps(s)| && Gaps(s)[k].0 <= x <= Gaps(s)[k].1) <==> s[0] < x < s[|s| - 1] && x !in s
  {
    AbsentInGap(s, x);
    InGapMeansInOne(Gaps(s), x);
  }

  lemma {:induction false} AbsentInGap(s: seq<Lsn>, x: nat)
    requires Sorted(s) && s != []
    ensures InGap(Gaps(s), x) <==> s[0] < x < s[|s| - 1] && x !in s
  {
    if |s| >= 2 {
      AbsentInGap(s[..|s| - 1], x);
      AbsentStep(s, x);
      GapStep(s, x);
    }
  }

  lemma AbsentStep(s: seq<Lsn>, x: nat)
    requires Sorted(s) && |s| >= 2
    ensures var init, a, b := s[..|s| - 1], s[|s| - 2], s[|s| - 1];
            (s[0] < x < b && x !in s) <==> (s[0] < x < a && x !in init) || a < x < b
  {
    var init, a, b := s[..|s| - 1], s[|s| - 2], s[|s| - 1];
    assert s[0] <= a <= b && s == init + [b] && init[|init| - 1] == a;
    assert forall k :: 0 <= k < |init| ==> init[k] <= a;
  }

  lemma GapStep(s: seq<Lsn>, x: nat)
    requires Sorted(s) && |s| >= 2
    ensures InGap(Gaps(s), x) <==> InGap(Gaps(s[..|s| - 1]), x) || s[|s| - 2] < x < s[|s| - 1]
  {
    var gaps, a, b := Gaps(s[..|s| - 1]), s[|s| - 2], s[|s| - 1];
    assert a <= b;
    if b > Successor(a) {
      var gap := (Successor(a), b - 1);
      assert Gaps(s) == gaps + [gap];
      InGapAppend(gaps, gap, x);
      assert gap.0 <= x <= gap.1 <==> a < x < b;
    } else {
      assert Gaps(s) == gaps;
    }
  }

  lemma InGapAppend(gaps: seq<(nat, nat)>, gap: (nat, nat), x: nat)
    ensures InGap(gaps + [gap], x) <==> InGap(gaps, x) || gap.0 <= x <= gap.1
  {
    assert (gaps + [gap])[..|gaps|] == gaps;
  }

  ghost function Distinct(s: seq<Lsn>): set<Lsn> {
    set x | x in s
  }

  /** The number of LSNs from the first to the last, both included. */
  function Span(first: nat, last: nat): int {
    last - first + 1
  }

  lemma DistinctAppend(init: seq<Lsn>, b: Lsn)
    ensures |Distinct(init + [b])| == |Distinct(init)| + if b in init then 0 else 1
  {
    assert Distinct(init + [b]) == Distinct(init) + {b};
  }

  lemma MissingStep(s: seq<Lsn>)
    requires |s| >= 2 && s[|s| - 2] <= s[|s| - 1]
    ensures var a, b := s[|s| - 2], s[|s| - 1];
            Missing(Gaps(s)) == Missing(Gaps(s[..|s| - 1])) + if a < b then Span(a, b) - 2 else 0
  {
    var gaps, a, b := Gaps(s[..|s| - 1]), s[|s| - 2], s[|s| - 1];
    if b > Successor(a) {
      MissingAppend(gaps, (Successor(a), b - 1));
    } else {
      assert gaps + [] == gaps;
    }
  }

  lemma DistinctStep(s: seq<Lsn>)
    requires |s| >= 2 && Sorted(s)
    ensures |Distinct(s)| == |Distinct(s[..|s| - 1])| + if s[|s| - 2] < s[|s| - 1] then 1 else 0
  {
    var init, b := s[..|s| - 1], s[|s| - 1];
    assert s == init + [b];
    assert init[|init| - 1] in init;
    DistinctAppend(init, b);
  }

  /** Missing and distinct LSNs add up to the span from the first to the last. */
  lemma {:induction false} MissingAndDistinctFillTheSpan(s: seq<Lsn>)
    requires Sorted(s) && s != []
    ensures Missing(Gaps(s)) + |Distinct(s)| == Span(s[0], s[|s| - 1])
  {
    if |s| == 1 {
      assert Distinct(s) == {s[0]};
    } else {
      MissingAndDistinctFillTheSpan(s[..|s| - 1]);
      MissingStep(s);
      DistinctStep(s);
    }
  }

  /** The recovery recommendation's walk over the leading records. */
  method ContinuousLast(sorted: seq<Lsn>) returns (last: Lsn)
    requires sorted != []
    ensures exists m :: 0 <= m < |sorted| && EndsMaximalRun(sorted, m) && last == sorted[m]
  {
    last := sorted[0];
    var i := 1;
    while i < |sorted|
      invariant 1 <= i <= |sorted| && last == sorted[i - 1]
      invariant Consecutive(sorted[..i])
    {
      var prev, next := sorted[i - 1], sorted[i];
      if next == Successor(prev) && next > prev {
        last := next;
      } else {
        break;
      }
      assert sorted[..i + 1] == sorted[..i] + [next];
      i := i + 1;
    }
    assert sorted[..i - 1 + 1] == sorted[..i];
    assert EndsMaximalRun(sorted, i - 1);
  }

  /** The records up to index `m` are consecutive, and the next one does not continue them. */
  ghost predicate EndsMaximalRun(s: seq<Lsn>, m: nat)
    requires m < |s|
  {
    Consecutive(s[..m + 1]) && (m + 1 < |s| ==> !Follows(s[m], s[m + 1]))
  }

  /** The recommended LSN ends the longest consecutive prefix. */
  lemma MaximalRunIsLongest(s: seq<Lsn>, m: nat, n: nat)
    requires m < |s| && n < |s| && EndsMaximalRun(s, m)
    ensures Consecutive(s[..n + 1]) <==> n <= m
  {
    var p, q := s[..n + 1], s[..m + 1];
    if m < n {
      assert Follows(p[m + 1 - 1], p[m + 1]) == Follows(s[m], s[m + 1]);
    } else {
      assert forall k :: 0 < k < |p| ==> Follows(p[k - 1], p[k]) == Follows(q[k - 1], q[k]);
    }
  }

  /** On a healthy log the recommendation is the last LSN; on any other it is a smaller one. */
  lemma HealthyExactlyWhenRunReachesTheEnd(s: seq<Lsn>, m: nat)
    requires Sorted(s) && m < |s| && EndsMaximalRun(s, m)
    ensures Broken(s) == 0 && Gaps(s) == [] <==> m == |s| - 1
  {
    PassesExactlyWhenConsecutive(s);
    MaximalRunIsLongest(s, m, |s| - 1);
    assert s[..|s| - 1 + 1] == s;
  }
}
