/** Offline verification of an audit log: both verify commands (cli/src/commands/verify.rs:402-573, 576-672). */
module LogVerifier {
  import opened LsnAccounting
  import opened SignatureChain
  import opened Wrappers

  predicate Has(records: seq<Rec>, lsn: Lsn) {
    exists i :: 0 <= i < |records| && records[i].lsn == lsn
  }

  function Orphans(sidecar: map<Lsn, Entry>, records: seq<Rec>): set<Lsn> {
    set lsn | lsn in sidecar && !Has(records, lsn)
  }

  function Lsns(records: seq<Rec>): seq<Lsn> {
    seq(|records|, i requires 0 <= i < |records| => records[i].lsn)
  }

  /** A stable insertion sort by LSN. */
  function Insert(sorted: seq<Rec>, r: Rec): seq<Rec> {
    if sorted == [] || sorted[|sorted| - 1].lsn <= r.lsn then sorted + [r]
    else Insert(sorted[..|sorted| - 1], r) + [sorted[|sorted| - 1]]
  }

  function SortByLsn(records: seq<Rec>): seq<Rec> {
    if records == [] then [] else Insert(SortByLsn(records[..|records| - 1]), records[|records| - 1])
  }

  ghost predicate SortedByLsn(records: seq<Rec>) {
    forall j, k :: 0 <= j < k < |records| ==> records[j].lsn <= records[k].lsn
  }

  lemma {:induction false} InsertPermutes(sorted: seq<Rec>, r: Rec)
    ensures multiset(Insert(sorted, r)) == multiset(sorted) + multiset{r} && |Insert(sorted, r)| == |sorted| + 1
    decreases |sorted|
  {
    if sorted != [] && sorted[|sorted| - 1].lsn > r.lsn {
      InsertPermutes(sorted[..|sorted| - 1], r);
      assert sorted == sorted[..|sorted| - 1] + [sorted[|sorted| - 1]];
    }
  }

  /** What bounds the records and the new one bounds the result. */
  lemma {:induction false} InsertBounded(sorted: seq<Rec>, r: Rec, bound: Lsn)
    requires r.lsn <= bound && forall k :: 0 <= k < |sorted| ==> sorted[k].lsn <= bound
    ensures forall k :: 0 <= k < |Insert(sorted, r)| ==> Insert(sorted, r)[k].lsn <= bound
    decreases |sorted|
  {
    if sorted != [] && sorted[|sorted| - 1].lsn > r.lsn {
      InsertBounded(sorted[..|sorted| - 1], r, bound);
    }
  }

  lemma {:induction false} InsertSorts(sorted: seq<Rec>, r: Rec)
    requires SortedByLsn(sorted)
    ensures SortedByLsn(Insert(sorted, r))
    decreases |sorted|
  {
    if sorted != [] && sorted[|sorted| - 1].lsn > r.lsn {
      InsertSorts(sorted[..|sorted| - 1], r);
      InsertBounded(sorted[..|sorted| - 1], r, sorted[|sorted| - 1].lsn);
    }
  }

  lemma {:induction false} SortOrders(records: seq<Rec>)
    ensures SortedByLsn(SortByLsn(records))
    decreases |records|
  {
    if records != [] {
      SortOrders(records[..|records| - 1]);
      InsertSorts(SortByLsn(records[..|records| - 1]), records[|records| - 1]);
    }
  }

  lemma MultisetAppend(records: seq<Rec>, r: Rec)
    ensures multiset(records + [r]) == multiset(records) + multiset{r}
  {
  }

  lemma {:induction false} SortPermutes(records: seq<Rec>)
    ensures multiset(SortByLsn(records)) == multiset(records) && |SortByLsn(records)| == |records|
    decreases |records|
  {
    if records != [] {
      var init, last := records[..|records| - 1], records[|records| - 1];
      SortPermutes(init);
      InsertPermutes(SortByLsn(init), last);
      MultisetAppend(init, last);
      assert records == init + [last];
    }
  }

  /** Sorting keeps the records and orders them. */
  lemma SortSorts(records: seq<Rec>)
    ensures SortedByLsn(SortByLsn(records)) && Sorted(Lsns(SortByLsn(records)))
    ensures multiset(SortByLsn(records)) == multiset(records) && |SortByLsn(records)| == |records|
  {
    SortOrders(records);
    SortPermutes(records);
  }

  datatype Report = Report(
    total: nat,
    validChain: nat,
    brokenChain: nat,
    gaps: seq<(nat, nat)>,
    validSig: nat,
    tamperedSig: nat,
    missingSig: nat,
    orphans: nat)

  predicate Clean(r: Report) {
    r.brokenChain == 0 && r.tamperedSig == 0 && r.gaps == [] && r.missingSig == 0 && r.orphans == 0
  }

  /** No record is tampered with or uncovered, and every entry has its record. */
  ghost predicate SidecarAgrees(c: Crypto, hasKey: bool, sorted: seq<Rec>, sidecar: map<Lsn, Entry>) {
    && (forall i :: 0 <= i < |sorted| ==> Good(Judge(c, hasKey, sidecar, sorted, i)))
    && (forall lsn :: lsn in sidecar ==> Has(sorted, lsn))
  }

  /** The log passes: consecutive LSNs and, with a sidecar, no bad signature and no orphan entry. */
  ghost predicate Passes(c: Crypto, hasKey: bool, sorted: seq<Rec>, sidecar: Option<map<Lsn, Entry>>) {
    Consecutive(Lsns(sorted)) && (sidecar.Some? ==> SidecarAgrees(c, hasKey, sorted, sidecar.value))
  }

  /** The signature pass over the sorted records. */
  method CheckSignatures(c: Crypto, hasKey: bool, sorted: seq<Rec>, sidecar: map<Lsn, Entry>)
    returns (valid: nat, tampered: nat, missing: nat)
    ensures valid == Count(c, hasKey, sidecar, sorted, |sorted|, Valid) == |ValidRecords(c, hasKey, sidecar, sorted)|
    ensures tampered == Count(c, hasKey, sidecar, sorted, |sorted|, Tampered)
                     == |TamperedRecords(c, hasKey, sidecar, sorted)|
    ensures missing == Count(c, hasKey, sidecar, sorted, |sorted|, MissingSignature)
                    == |UncoveredRecords(c, sidecar, sorted)|
  {
    CountsAreNumbers(c, hasKey, sidecar, sorted);
    valid, tampered, missing := 0, 0, 0;
    var prevChain: Option<(Digest, Lsn)> := None;
    for i := 0 to |sorted|
      invariant valid == Count(c, hasKey, sidecar, sorted, i, Valid)
      invariant tampered == Count(c, hasKey, sidecar, sorted, i, Tampered)
      invariant missing == Count(c, hasKey, sidecar, sorted, i, MissingSignature)
      invariant prevChain == Link(Chain(c, sorted[..i]))
    {
      var r := sorted[i];
      LinkNext(c, sorted, i);
      if !InChain(c, r) {
        continue;
      }
      var prevHash :=
        if prevChain.Some? then DerivePrevHash(c, prevChain.value.0, prevChain.value.1) else GenesisPrevHash(c);
      prevChain := Some((r.contentHash, r.lsn));
      if r.lsn !in sidecar {
        missing := missing + 1;
        continue;
      }
      var entry := sidecar[r.lsn];
      if !ContentOk(c, r) {
        tampered := tampered + 1;
      } else if entry.contentHash != r.contentHash {
        tampered := tampered + 1;
      } else if hasKey {
        if c.verify(SigningPayload(c, r, prevHash), entry.signature) {
          valid := valid + 1;
        } else {
          tampered := tampered + 1;
        }
      } else {
        valid := valid + 1;
      }
    }
  }

  method CountOrphans(sorted: seq<Rec>, sidecar: map<Lsn, Entry>) returns (orphans: nat)
    ensures orphans == |Orphans(sidecar, sorted)|
  {
    orphans := 0;
    var keys := sidecar.Keys;
    ghost var found: set<Lsn> := {};
    while keys != {}
      invariant keys <= sidecar.Keys && orphans == |found|
      invariant found == set lsn | lsn in sidecar.Keys - keys && !Has(sorted, lsn)
      decreases keys
    {
      var lsn :| lsn in keys;
      keys := keys - {lsn};
      if !Has(sorted, lsn) {
        orphans := orphans + 1;
        found := found + {lsn};
      }
    }
    assert found == Orphans(sidecar, sorted);
  }

  /** The counts a report makes of the signatures; without a sidecar there is nothing to count. */
  ghost predicate SignaturesCounted(c: Crypto, hasKey: bool, sorted: seq<Rec>, sidecar: Option<map<Lsn, Entry>>,
                                    valid: nat, tampered: nat, missing: nat, orphans: nat)
  {
    match sidecar
    case None => valid == tampered == missing == orphans == 0
    case Some(entries) =>
      && valid == |ValidRecords(c, hasKey, entries, sorted)|
      && tampered == |TamperedRecords(c, hasKey, entries, sorted)|
      && missing == |UncoveredRecords(c, entries, sorted)| && orphans == |Orphans(entries, sorted)|
  }

  /** The text command: an empty log is reported as nothing to verify, whatever the sidecar holds. */
  datatype TextOutcome = NothingToVerify | Verified(report: Report)

  ghost predicate TextSucceeds(c: Crypto, hasKey: bool, records: seq<Rec>, sidecar: Option<map<Lsn, Entry>>) {
    records == [] || Passes(c, hasKey, SortByLsn(records), sidecar)
  }

  method VerifyLog(c: Crypto, hasKey: bool, records: seq<Rec>, sidecar: Option<map<Lsn, Entry>>)
    returns (outcome: TextOutcome)
    ensures outcome.NothingToVerify? <==> records == []
    ensures outcome.Verified? ==>
              var r, sorted := outcome.report, SortByLsn(records);
              && r.total == |records| && r.gaps == Gaps(Lsns(sorted)) && r.brokenChain == Broken(Lsns(sorted))
              && r.validChain + r.brokenChain == |records| - 1
              && SignaturesCounted(c, hasKey, sorted, sidecar, r.validSig, r.tamperedSig, r.missingSig, r.orphans)
    ensures (outcome.Verified? ==> Clean(outcome.report)) <==> TextSucceeds(c, hasKey, records, sidecar)
  {
    if records == [] {
      return NothingToVerify;
    }
    var sorted := SortByLsn(records);
    SortSorts(records);
    var valid, broken, gaps := CheckContinuity(Lsns(sorted));
    PassesExactlyWhenConsecutive(Lsns(sorted));
    var validSig, tampered, missing, orphans := 0, 0, 0, 0;
    if sidecar.Some? {
      validSig, tampered, missing := CheckSignatures(c, hasKey, sorted, sidecar.value);
      orphans := CountOrphans(sorted, sidecar.value);
    }
    CleanExactlyWhen(c, hasKey, sorted, sidecar, validSig, tampered, missing, orphans);
    return Verified(Report(|sorted|, valid, broken, gaps, validSig, tampered, missing, orphans));
  }

  /** The JSON command has no early exit; it counts the gaps. */
  method VerifyLogJson(c: Crypto, hasKey: bool, records: seq<Rec>, sidecar: Option<map<Lsn, Entry>>)
    returns (passed: bool, gapCount: nat)
    ensures passed <==> Passes(c, hasKey, SortByLsn(records), sidecar)
    ensures gapCount == |Gaps(Lsns(SortByLsn(records)))|
  {
    var sorted := SortByLsn(records);
    SortSorts(records);
    var broken, gapsFound, _ := CountContinuity(Lsns(sorted));
    PassesExactlyWhenConsecutive(Lsns(sorted));
    gapCount := gapsFound;
    var valid, tampered, missing, orphans := 0, 0, 0, 0;
    if sidecar.Some? {
      valid, tampered, missing := CheckSignatures(c, hasKey, sorted, sidecar.value);
      orphans := CountOrphans(sorted, sidecar.value);
    }
    CleanExactlyWhen(c, hasKey, sorted, sidecar, valid, tampered, missing, orphans);
    passed := broken == 0 && tampered == 0 && gapCount == 0 && missing == 0 && orphans == 0;
  }

  /** Zero counts mean that the sidecar, if there is one, agrees with the records. */
  lemma CleanExactlyWhen(c: Crypto, hasKey: bool, sorted: seq<Rec>, sidecar: Option<map<Lsn, Entry>>,
                         valid: nat, tampered: nat, missing: nat, orphans: nat)
    requires SignaturesCounted(c, hasKey, sorted, sidecar, valid, tampered, missing, orphans)
    ensures tampered == 0 && missing == 0 && orphans == 0 <==>
              (sidecar.Some? ==> SidecarAgrees(c, hasKey, sorted, sidecar.value))
  {
    if sidecar.Some? {
      CountsAreNumbers(c, hasKey, sidecar.value, sorted);
      CleanCounts(c, hasKey, sidecar.value, sorted);
    }
  }

  /** Zero counts mean that every record is skipped or valid and that no entry is an orphan. */
  lemma CleanCounts(c: Crypto, hasKey: bool, sidecar: map<Lsn, Entry>, sorted: seq<Rec>)
    ensures Count(c, hasKey, sidecar, sorted, |sorted|, Tampered) == 0
            && Count(c, hasKey, sidecar, sorted, |sorted|, MissingSignature) == 0
       <==> forall i :: 0 <= i < |sorted| ==> Good(Judge(c, hasKey, sidecar, sorted, i))
    ensures |Orphans(sidecar, sorted)| == 0 <==> forall lsn :: lsn in sidecar ==> Has(sorted, lsn)
  {
    CountZero(c, hasKey, sidecar, sorted, |sorted|, Tampered);
    CountZero(c, hasKey, sidecar, sorted, |sorted|, MissingSignature);
    assert Orphans(sidecar, sorted) == {} <==> forall lsn :: lsn in sidecar ==> Has(sorted, lsn) by {
      if Orphans(sidecar, sorted) == {} {
        forall lsn | lsn in sidecar ensures Has(sorted, lsn) {
          assert lsn !in Orphans(sidecar, sorted);
        }
      }
    }
  }

  lemma {:induction false} CountZero(c: Crypto, hasKey: bool, sidecar: map<Lsn, Entry>, sorted: seq<Rec>, n: nat,
      v: Verdict)
    requires n <= |sorted|
    ensures Count(c, hasKey, sidecar, sorted, n, v) == 0 <==>
              forall i :: 0 <= i < n ==> Judge(c, hasKey, sidecar, sorted, i) != v
  {
    if n > 0 { CountZero(c, hasKey, sidecar, sorted, n - 1, v); }
  }
}
