/** What a verdict on an audit log means (cli/src/commands/verify.rs:188-244, 397-573). */
module VerifierTheorems {
  import opened LogVerifier
  import opened LsnAccounting
  import opened SignatureChain
  import opened Wrappers

  /**
   Text and JSON give the same verdict on every non-empty log; on an empty one they do exactly when
   the sidecar is absent or empty.
   */
  lemma VerdictsAgreeExactlyWhen(c: Crypto, hasKey: bool, records: seq<Rec>, sidecar: Option<map<Lsn, Entry>>)
    ensures (TextSucceeds(c, hasKey, records, sidecar) <==> Passes(c, hasKey, SortByLsn(records), sidecar))
       <==> records != [] || sidecar.None? || sidecar.value.Keys == {}
  {
    if records == [] && sidecar.Some? {
      assert forall lsn :: !Has([], lsn);
      assert sidecar.value.Keys != {} ==> exists lsn :: lsn in sidecar.value;
    }
  }

  /** An empty log with a sidecar entry: nothing to verify for the text command, a failure for the JSON command. */
  lemma VerdictsDiffer(c: Crypto, hasKey: bool, lsn: Lsn, entry: Entry)
    ensures TextSucceeds(c, hasKey, [], Some(map[lsn := entry]))
    ensures !Passes(c, hasKey, SortByLsn([]), Some(map[lsn := entry]))
  {
    assert lsn in map[lsn := entry] && !Has([], lsn);
  }

  /**
   What passing means, record by record: consecutive LSNs; with a sidecar, every signed record has an entry, its
   contents and that entry give its content hash and, given a key, its signature verifies behind the last signed
   record in front of it; and every entry has a record.
   */
  lemma PassesExactlyWhenAllHold(c: Crypto, hasKey: bool, sorted: seq<Rec>, sidecar: Option<map<Lsn, Entry>>)
    ensures Passes(c, hasKey, sorted, sidecar) <==>
              && (forall i :: 0 < i < |sorted| ==> sorted[i].lsn == sorted[i - 1].lsn + 1)
              && (sidecar.Some? ==>
                    && (forall i :: 0 <= i < |sorted| && sorted[i].contentHash != c.zero ==>
                          Holds(c, hasKey, sidecar.value, sorted, i))
                    && (forall lsn :: lsn in sidecar.value ==> exists i :: 0 <= i < |sorted| && sorted[i].lsn == lsn))
  {
    ConsecutiveLsns(sorted);
    if sidecar.Some? {
      forall i | 0 <= i < |sorted|
        ensures Good(Judge(c, hasKey, sidecar.value, sorted, i))
           <==> (sorted[i].contentHash != c.zero ==> Holds(c, hasKey, sidecar.value, sorted, i))
      {
        JudgedExactly(c, hasKey, sidecar.value, sorted, i);
      }
    }
  }

  lemma ConsecutiveLsns(sorted: seq<Rec>)
    ensures Consecutive(Lsns(sorted)) <==> forall i :: 0 < i < |sorted| ==> sorted[i].lsn == sorted[i - 1].lsn + 1
  {
    if Consecutive(Lsns(sorted)) {
      forall i | 0 < i < |sorted| ensures sorted[i].lsn == sorted[i - 1].lsn + 1 {
        assert Lsns(sorted)[i] == sorted[i].lsn && Lsns(sorted)[i - 1] == sorted[i - 1].lsn;
      }
    }
  }

  // ---------------------------------------------------------------------------------------------
  // Soundness and completeness of the chain
  // ---------------------------------------------------------------------------------------------

  /** No two inputs collide. */
  ghost predicate CollisionFree(c: Crypto) {
    && (forall a, b :: c.sha256(a) == c.sha256(b) ==> a == b)
    && (forall a, b :: c.contentHash(a) == c.contentHash(b) ==> a == b)
  }

  /** What an honest signer signs: increasing LSNs and true, non-zero content hashes. */
  ghost predicate Honest(c: Crypto, signed: seq<Rec>) {
    && (forall k :: 0 <= k < |signed| ==> ContentOk(c, signed[k]))
    && (forall j, k :: 0 <= j < k < |signed| ==> signed[j].lsn < signed[k].lsn)
  }

  ghost function SignedDigest(c: Crypto, signed: seq<Rec>, k: nat): Digest
    requires k < |signed|
  {
    SigningPayload(c, signed[k], PrevHash(c, signed[..k]))
  }

  /** Only the digests of the signed sequence verify. */
  ghost predicate OnlySignedVerify(c: Crypto, signed: seq<Rec>) {
    forall d, s :: c.verify(d, s) ==> exists k :: 0 <= k < |signed| && d == SignedDigest(c, signed, k)
  }

  /** The predecessor hash identifies the position in the signed sequence. */
  lemma PrevHashInjective(c: Crypto, signed: seq<Rec>, j: nat, k: nat)
    requires CollisionFree(c) && Honest(c, signed) && j <= |signed| && k <= |signed|
    requires PrevHash(c, signed[..j]) == PrevHash(c, signed[..k])
    ensures j == k
  {
    var a := if j == 0 then [Hash(c.zero), Word(0)] else [Hash(signed[j - 1].contentHash), Word(signed[j - 1].lsn)];
    var b := if k == 0 then [Hash(c.zero), Word(0)] else [Hash(signed[k - 1].contentHash), Word(signed[k - 1].lsn)];
    assert c.sha256(a) == c.sha256(b);
    assert a[0] == b[0] && a[1] == b[1];
    if j > 0 { assert ContentOk(c, signed[j - 1]); }
    if k > 0 { assert ContentOk(c, signed[k - 1]); }
  }

  /** A record that verifies behind the first `m` signed records is the next signed record. */
  lemma NextIsSigned(c: Crypto, signed: seq<Rec>, m: nat, r: Rec, s: Signature)
    requires CollisionFree(c) && Honest(c, signed) && OnlySignedVerify(c, signed) && m <= |signed|
    requires ContentOk(c, r) && c.verify(SigningPayload(c, r, PrevHash(c, signed[..m])), s)
    ensures m < |signed| && r == signed[m]
  {
    var k :| 0 <= k < |signed| && SigningPayload(c, r, PrevHash(c, signed[..m])) == SignedDigest(c, signed, k);
    var a := [Word(r.lsn), Hash(r.contentHash), Hash(PrevHash(c, signed[..m]))];
    var b := [Word(signed[k].lsn), Hash(signed[k].contentHash), Hash(PrevHash(c, signed[..k]))];
    assert c.sha256(a) == c.sha256(b);
    assert a[0] == b[0] && a[1] == b[1] && a[2] == b[2];
    PrevHashInjective(c, signed, m, k);
    assert ContentOk(c, signed[k]);
  }

  lemma {:induction false} ChainIsPrefix(c: Crypto, sorted: seq<Rec>, sidecar: map<Lsn, Entry>, signed: seq<Rec>,
      i: nat)
    requires CollisionFree(c) && Honest(c, signed) && OnlySignedVerify(c, signed)
    requires Passes(c, true, sorted, Some(sidecar)) && i <= |sorted|
    ensures Chain(c, sorted[..i]) <= signed
  {
    if i > 0 {
      ChainIsPrefix(c, sorted, sidecar, signed, i - 1);
      assert Good(Judge(c, true, sidecar, sorted, i - 1));
      ChainExtends(c, sorted, sidecar, signed, i - 1);
    }
  }

  /** A record that is out of the chain or valid keeps the chain a prefix of the signed sequence. */
  lemma ChainExtends(c: Crypto, sorted: seq<Rec>, sidecar: map<Lsn, Entry>, signed: seq<Rec>, i: nat)
    requires CollisionFree(c) && Honest(c, signed) && OnlySignedVerify(c, signed)
    requires i < |sorted| && Chain(c, sorted[..i]) <= signed
    requires Good(Judge(c, true, sidecar, sorted, i))
    ensures Chain(c, sorted[..i + 1]) <= signed
  {
    var r, before := sorted[i], Chain(c, sorted[..i]);
    ChainAppend(c, sorted, i);
    if InChain(c, r) {
      assert before == signed[..|before|];
      NextIsSigned(c, signed, |before|, r, sidecar[r.lsn].signature);
    }
  }

  /**
   Soundness: if a log passes with key and sidecar, its in-chain records are exactly a prefix of the
   signed sequence, contents included.
   */
  lemma PassingLogIsASignedPrefix(c: Crypto, records: seq<Rec>, sidecar: map<Lsn, Entry>, signed: seq<Rec>)
    requires CollisionFree(c) && Honest(c, signed) && OnlySignedVerify(c, signed)
    requires Passes(c, true, SortByLsn(records), Some(sidecar))
    ensures Chain(c, SortByLsn(records)) <= signed
  {
    var sorted := SortByLsn(records);
    ChainIsPrefix(c, sorted, sidecar, signed, |sorted|);
    assert sorted[..|sorted|] == sorted;
  }

  /** The sidecar an honest signer wrote: an entry for each signed record and no other. */
  ghost predicate HonestSidecar(c: Crypto, signed: seq<Rec>, sidecar: map<Lsn, Entry>) {
    && (forall k :: 0 <= k < |signed| ==>
          && signed[k].lsn in sidecar
          && sidecar[signed[k].lsn].contentHash == signed[k].contentHash
          && c.verify(SignedDigest(c, signed, k), sidecar[signed[k].lsn].signature))
    && (forall lsn :: lsn in sidecar ==> Has(signed, lsn))
  }

  lemma {:induction false} ChainOfPrefix(c: Crypto, sorted: seq<Rec>, i: nat)
    requires i <= |sorted|
    ensures Chain(c, sorted[..i]) <= Chain(c, sorted)
    ensures forall r :: r in Chain(c, sorted) ==> r in sorted
    decreases |sorted|
  {
    if i < |sorted| {
      var init := sorted[..|sorted| - 1];
      ChainOfPrefix(c, init, i);
      assert init[..i] == sorted[..i];
    } else {
      assert sorted[..i] == sorted;
      if sorted != [] { ChainOfPrefix(c, sorted[..|sorted| - 1], 0); }
    }
  }

  /** An in-chain record up to which the chain is a prefix of the signed sequence is the next signed record. */
  lemma NextOfPrefix(c: Crypto, sorted: seq<Rec>, signed: seq<Rec>, i: nat)
    requires i < |sorted| && InChain(c, sorted[i]) && Chain(c, sorted[..i + 1]) <= signed
    ensures var before := Chain(c, sorted[..i]);
            |before| < |signed| && signed[|before|] == sorted[i] && signed[..|before|] == before
  {
    var before := Chain(c, sorted[..i]);
    ChainAppend(c, sorted, i);
    assert signed[|before|] == (before + [sorted[i]])[|before|];
  }

  /** And a record out of the chain or, with the signer's sidecar, valid. */
  lemma HonestJudgement(c: Crypto, hasKey: bool, sorted: seq<Rec>, sidecar: map<Lsn, Entry>, signed: seq<Rec>, i: nat)
    requires Honest(c, signed) && HonestSidecar(c, signed, sidecar) && i < |sorted|
    requires Chain(c, sorted[..i + 1]) <= signed
    ensures Good(Judge(c, hasKey, sidecar, sorted, i))
  {
    if InChain(c, sorted[i]) {
      NextOfPrefix(c, sorted, signed, i);
      var m := |Chain(c, sorted[..i])|;
      assert ContentOk(c, signed[m]) && signed[m].lsn in sidecar;
      assert c.verify(SignedDigest(c, signed, m), sidecar[signed[m].lsn].signature);
    }
  }

  lemma CountAppend(s: seq<Rec>, x: Rec, r: Rec)
    ensures multiset(s + [x])[r] == multiset(s)[r] + if x == r then 1 else 0
  {
  }

  lemma {:induction false} ChainFilters(c: Crypto, records: seq<Rec>, r: Rec)
    ensures multiset(Chain(c, records))[r] == if InChain(c, r) then multiset(records)[r] else 0
  {
    if records != [] {
      var init, last := records[..|records| - 1], records[|records| - 1];
      ChainFilters(c, init, r);
      assert records == init + [last];
      CountAppend(init, last, r);
      CountAppend(Chain(c, init), last, r);
    }
  }

  /** The in-chain records of the sorted log are those of the log, in order. */
  lemma ChainOfSorted(c: Crypto, records: seq<Rec>)
    ensures multiset(Chain(c, SortByLsn(records))) == multiset(Chain(c, records))
    ensures SortedByLsn(Chain(c, SortByLsn(records)))
  {
    var sorted := SortByLsn(records);
    SortSorts(records);
    forall r ensures multiset(Chain(c, sorted))[r] == multiset(Chain(c, records))[r] {
      ChainFilters(c, sorted, r);
      ChainFilters(c, records, r);
    }
    ChainSorted(c, sorted);
  }

  lemma {:induction false} ChainSorted(c: Crypto, sorted: seq<Rec>)
    requires SortedByLsn(sorted)
    ensures SortedByLsn(Chain(c, sorted))
  {
    if sorted != [] {
      var last := |sorted| - 1;
      var before := Chain(c, sorted[..last]);
      ChainSorted(c, sorted[..last]);
      ChainOfPrefix(c, sorted[..last], 0);
      forall k | 0 <= k < |before| ensures before[k].lsn <= sorted[last].lsn {
        assert before[k] in before;
      }
    }
  }

  ghost predicate Increasing(b: seq<Rec>) {
    forall j, k :: 0 <= j < k < |b| ==> b[j].lsn < b[k].lsn
  }

  lemma SameLast(a: seq<Rec>, b: seq<Rec>)
    requires SortedByLsn(a) && Increasing(b) && a != [] && b != [] && multiset(a) == multiset(b)
    ensures a[|a| - 1] == b[|b| - 1]
  {
    var x, y := a[|a| - 1], b[|b| - 1];
    assert x in multiset(a) && y in multiset(b);
    assert x in b && y in a;
    var j: nat :| j < |b| && b[j] == x;
    var k: nat :| k < |a| && a[k] == y;
    assert y.lsn <= x.lsn;
    assert j < |b| - 1 ==> x.lsn < y.lsn;
  }

  lemma DropLast(a: seq<Rec>)
    requires a != []
    ensures multiset(a[..|a| - 1]) == multiset(a) - multiset{a[|a| - 1]}
  {
    assert a == a[..|a| - 1] + [a[|a| - 1]];
  }

  /** A sequence in order of LSN is determined by its records if their LSNs differ. */
  lemma {:induction false} OrderIsUnique(a: seq<Rec>, b: seq<Rec>)
    requires SortedByLsn(a) && Increasing(b) && multiset(a) == multiset(b)
    ensures a == b
    decreases |a|
  {
    SameLength(a, b);
    if a != [] {
      var p, q := a[..|a| - 1], b[..|b| - 1];
      SameLast(a, b);
      assert multiset(p) == multiset(q) by {
        DropLast(a);
        DropLast(b);
      }
      OrderIsUnique(p, q);
      assert a == p + [a[|a| - 1]] && b == q + [b[|b| - 1]];
    }
  }

  lemma SameLength(a: seq<Rec>, b: seq<Rec>)
    requires multiset(a) == multiset(b)
    ensures |a| == |b|
  {
    assert |a| == |multiset(a)| && |b| == |multiset(b)|;
  }

  /**
   Completeness: a log without gaps whose in-chain records are the signed ones, stored in whatever order, passes with
   the signer's sidecar.
   */
  lemma HonestLogPasses(c: Crypto, hasKey: bool, records: seq<Rec>, sidecar: map<Lsn, Entry>, signed: seq<Rec>)
    requires Honest(c, signed) && HonestSidecar(c, signed, sidecar)
    requires multiset(Chain(c, records)) == multiset(signed) && Consecutive(Lsns(SortByLsn(records)))
    ensures Passes(c, hasKey, SortByLsn(records), Some(sidecar))
  {
    var sorted := SortByLsn(records);
    ChainOfSorted(c, records);
    OrderIsUnique(Chain(c, sorted), signed);
    SortedHonestLogPasses(c, hasKey, sorted, sidecar, signed);
  }

  lemma SortedHonestLogPasses(c: Crypto, hasKey: bool, sorted: seq<Rec>, sidecar: map<Lsn, Entry>, signed: seq<Rec>)
    requires Honest(c, signed) && HonestSidecar(c, signed, sidecar)
    requires Chain(c, sorted) == signed && Consecutive(Lsns(sorted))
    ensures Passes(c, hasKey, sorted, Some(sidecar))
  {
    PrefixPasses(c, hasKey, sorted, sidecar, signed);
  }

  // ---------------------------------------------------------------------------------------------
  // Deleted records
  // ---------------------------------------------------------------------------------------------

  /** Some record, in the chain or not, has the LSN of each signed record from position `m` on. */
  ghost predicate TailCovered(sorted: seq<Rec>, signed: seq<Rec>, m: nat) {
    forall k :: m <= k < |signed| ==> Has(sorted, signed[k].lsn)
  }

  /** The chain is a prefix of the signed records, and some record has the LSN of each one behind it. */
  ghost predicate Covers(c: Crypto, sorted: seq<Rec>, signed: seq<Rec>) {
    Chain(c, sorted) <= signed && TailCovered(sorted, signed, |Chain(c, sorted)|)
  }

  lemma PrefixTransitive(a: seq<Rec>, b: seq<Rec>, d: seq<Rec>)
    requires a <= b <= d
    ensures a <= d
  {
  }

  lemma PrefixJudgement(c: Crypto, hasKey: bool, sorted: seq<Rec>, sidecar: map<Lsn, Entry>, signed: seq<Rec>, i: nat)
    requires Honest(c, signed) && HonestSidecar(c, signed, sidecar) && i < |sorted| && Chain(c, sorted) <= signed
    ensures Good(Judge(c, hasKey, sidecar, sorted, i))
  {
    ChainOfPrefix(c, sorted, i + 1);
    PrefixTransitive(Chain(c, sorted[..i + 1]), Chain(c, sorted), signed);
    HonestJudgement(c, hasKey, sorted, sidecar, signed, i);
  }

  lemma CoveredSigned(c: Crypto, sorted: seq<Rec>, signed: seq<Rec>, k: nat)
    requires Covers(c, sorted, signed) && k < |signed|
    ensures Has(sorted, signed[k].lsn)
  {
    if k < |Chain(c, sorted)| {
      ChainOfPrefix(c, sorted, 0);
      assert Chain(c, sorted)[k] == signed[k] && signed[k] in sorted;
    }
  }

  lemma PrefixPasses(c: Crypto, hasKey: bool, sorted: seq<Rec>, sidecar: map<Lsn, Entry>, signed: seq<Rec>)
    requires Honest(c, signed) && HonestSidecar(c, signed, sidecar) && Consecutive(Lsns(sorted))
    requires Covers(c, sorted, signed)
    ensures Passes(c, hasKey, sorted, Some(sidecar))
  {
    forall i | 0 <= i < |sorted| ensures Good(Judge(c, hasKey, sidecar, sorted, i)) {
      PrefixJudgement(c, hasKey, sorted, sidecar, signed, i);
    }
    forall lsn | lsn in sidecar ensures Has(sorted, lsn) {
      var k :| 0 <= k < |signed| && signed[k].lsn == lsn;
      CoveredSigned(c, sorted, signed, k);
    }
  }

  /**
   What passing says about deletion. With the signer's full sidecar a log passes exactly if its LSNs are consecutive,
   its in-chain records are a prefix of the signed ones, and the LSN of each signed record behind it is that of some
   record: the orphan test does not ask whether that record is in the chain.
   */
  lemma PassesExactlyWhenTailIsCovered(c: Crypto, records: seq<Rec>, sidecar: map<Lsn, Entry>, signed: seq<Rec>)
    requires CollisionFree(c) && Honest(c, signed) && OnlySignedVerify(c, signed) && HonestSidecar(c, signed, sidecar)
    ensures var sorted := SortByLsn(records);
            Passes(c, true, sorted, Some(sidecar)) <==> Consecutive(Lsns(sorted)) && Covers(c, sorted, signed)
  {
    var sorted := SortByLsn(records);
    if Passes(c, true, sorted, Some(sidecar)) {
      PassingLogIsASignedPrefix(c, records, sidecar, signed);
    } else if Consecutive(Lsns(sorted)) && Covers(c, sorted, signed) {
      PrefixPasses(c, true, sorted, sidecar, signed);
    }
  }

  /** The signed records, those from position `m` on replaced by unsigned ones with the same LSN and any body. */
  function Blanked(c: Crypto, signed: seq<Rec>, m: nat, body: Body): seq<Rec> {
    seq(|signed|, i requires 0 <= i < |signed| => if i < m then signed[i] else Rec(signed[i].lsn, body, c.zero))
  }

  lemma {:induction false} ChainOfBlanked(c: Crypto, signed: seq<Rec>, m: nat, body: Body, i: nat)
    requires Honest(c, signed) && m <= |signed| && i <= |signed|
    ensures Chain(c, Blanked(c, signed, m, body)[..i]) == signed[..if i < m then i else m]
  {
    var blanked := Blanked(c, signed, m, body);
    if i > 0 {
      ChainOfBlanked(c, signed, m, body, i - 1);
      ChainAppend(c, blanked, i - 1);
      if i <= m {
        assert ContentOk(c, signed[i - 1]);
        assert signed[..i] == signed[..i - 1] + [signed[i - 1]];
      }
    }
  }

  lemma BlankedLsns(c: Crypto, signed: seq<Rec>, m: nat, body: Body)
    requires Honest(c, signed)
    ensures var blanked := Blanked(c, signed, m, body);
            Lsns(blanked) == Lsns(signed) && SortedByLsn(blanked) && TailCovered(blanked, signed, m)
  {
    var blanked := Blanked(c, signed, m, body);
    forall k | 0 <= k < |signed| ensures Has(blanked, signed[k].lsn) && blanked[k].lsn == signed[k].lsn {
      assert blanked[k].lsn == signed[k].lsn;
    }
  }

  lemma InsertLast(sorted: seq<Rec>, r: Rec)
    requires sorted == [] || sorted[|sorted| - 1].lsn <= r.lsn
    ensures Insert(sorted, r) == sorted + [r]
  {
  }

  lemma {:induction false} SortedStays(records: seq<Rec>)
    requires SortedByLsn(records)
    ensures SortByLsn(records) == records
  {
    if records != [] {
      var init, last := records[..|records| - 1], records[|records| - 1];
      SortedStays(init);
      InsertLast(init, last);
      assert init + [last] == records;
    }
  }

  /** So a passing log need not hold every signed record: all from any position on, even the first, can be gone. */
  lemma DeletedTailPasses(c: Crypto, hasKey: bool, sidecar: map<Lsn, Entry>, signed: seq<Rec>, m: nat, body: Body)
    requires Honest(c, signed) && HonestSidecar(c, signed, sidecar) && Consecutive(Lsns(signed)) && m <= |signed|
    ensures var sorted := SortByLsn(Blanked(c, signed, m, body));
            Passes(c, hasKey, sorted, Some(sidecar)) && Chain(c, sorted) == signed[..m]
  {
    var records := Blanked(c, signed, m, body);
    BlankedLsns(c, signed, m, body);
    SortedStays(records);
    ChainOfBlanked(c, signed, m, body, |signed|);
    assert records[..|signed|] == records;
    PrefixPasses(c, hasKey, records, sidecar, signed);
  }

  lemma {:induction false} ChainOfAll(c: Crypto, records: seq<Rec>)
    requires forall r :: r in records ==> InChain(c, r)
    ensures Chain(c, records) == records
  {
    if records != [] {
      ChainOfAll(c, records[..|records| - 1]);
      assert records == records[..|records| - 1] + [records[|records| - 1]];
    }
  }

  lemma NextIsUncovered(c: Crypto, sorted: seq<Rec>, signed: seq<Rec>)
    requires Honest(c, signed) && sorted < signed
    ensures !Has(sorted, signed[|sorted|].lsn)
  {
    forall j | 0 <= j < |sorted| ensures sorted[j].lsn != signed[|sorted|].lsn {
      assert sorted[j] == signed[j];
    }
  }

  lemma SameMembers(a: seq<Rec>, b: seq<Rec>)
    requires multiset(a) == multiset(b)
    ensures forall r :: r in a <==> r in b
  {
    forall r ensures r in a <==> r in b {
      assert r in a <==> r in multiset(a);
      assert r in b <==> r in multiset(b);
    }
  }

  lemma CoveredExactlyWhenComplete(c: Crypto, sorted: seq<Rec>, signed: seq<Rec>)
    requires Honest(c, signed)
    ensures sorted <= signed && TailCovered(sorted, signed, |sorted|) <==> sorted == signed
  {
    if sorted < signed {
      NextIsUncovered(c, sorted, signed);
      assert !TailCovered(sorted, signed, |sorted|);
    }
  }

  /** A log of in-chain records only passes with the full sidecar exactly if it is the signed log, in any order. */
  lemma ChainedLogPassesExactlyWhenComplete(c: Crypto, records: seq<Rec>, sidecar: map<Lsn, Entry>, signed: seq<Rec>)
    requires CollisionFree(c) && Honest(c, signed) && OnlySignedVerify(c, signed) && HonestSidecar(c, signed, sidecar)
    requires forall r :: r in records ==> InChain(c, r)
    ensures Passes(c, true, SortByLsn(records), Some(sidecar)) <==>
              Consecutive(Lsns(signed)) && SortByLsn(records) == signed
  {
    var sorted := SortByLsn(records);
    SortSorts(records);
    SameMembers(sorted, records);
    ChainOfAll(c, sorted);
    PassesExactlyWhenTailIsCovered(c, records, sidecar, signed);
    CoveredExactlyWhenComplete(c, sorted, signed);
  }
}
