/**
 The derived-predecessor signature chain of an audit log (cli/src/commands/verify.rs:188-244, 443-500): what the
 signature pass says of each record, and what that means in terms of hashes and signatures.

 Digests, record bodies and signatures are abstract. SHA-256 is a function on sequences of fixed-width blocks; what is
 assumed of it and of signatures is a premise of each theorem.
 */
module SignatureChain {
  import opened LsnAccounting
  import opened Wrappers

  type Digest(==, 0, !new)
  type Body(==, 0, !new)
  type Signature(==, 0, !new)

  /** One `update` of the hasher: a little-endian 64-bit word or a 32-byte digest. */
  datatype Block = Word(n: Lsn) | Hash(d: Digest)

  /** `verify` checks a signature over a digest with the given public key. */
  datatype Crypto = Crypto(
    zero: Digest,
    sha256: seq<Block> -> Digest,
    contentHash: Body -> Digest,
    verify: (Digest, Signature) -> bool)

  datatype Rec = Rec(lsn: Lsn, body: Body, contentHash: Digest)

  datatype Entry = Entry(contentHash: Digest, signature: Signature)

  predicate InChain(c: Crypto, r: Rec) {
    r.contentHash != c.zero
  }

  predicate ContentOk(c: Crypto, r: Rec) {
    InChain(c, r) && c.contentHash(r.body) == r.contentHash
  }

  function SigningPayload(c: Crypto, r: Rec, prevHash: Digest): Digest {
    c.sha256([Word(r.lsn), Hash(r.contentHash), Hash(prevHash)])
  }

  function DerivePrevHash(c: Crypto, contentHash: Digest, lsn: Lsn): Digest {
    c.sha256([Hash(contentHash), Word(lsn)])
  }

  function GenesisPrevHash(c: Crypto): Digest {
    DerivePrevHash(c, c.zero, 0)
  }

  /** The in-chain records, in order. */
  function Chain(c: Crypto, records: seq<Rec>): seq<Rec> {
    if records == [] then []
    else
      var last := records[|records| - 1];
      Chain(c, records[..|records| - 1]) + (if InChain(c, last) then [last] else [])
  }

  lemma ChainAppend(c: Crypto, sorted: seq<Rec>, i: nat)
    requires i < |sorted|
    ensures Chain(c, sorted[..i + 1]) == Chain(c, sorted[..i]) + if InChain(c, sorted[i]) then [sorted[i]] else []
  {
    assert sorted[..i + 1][..i] == sorted[..i];
  }

  /** The predecessor hash after these records: derived from the last one in the chain. */
  function PrevHash(c: Crypto, chain: seq<Rec>): Digest {
    if chain == [] then GenesisPrevHash(c)
    else DerivePrevHash(c, chain[|chain| - 1].contentHash, chain[|chain| - 1].lsn)
  }

  /** What the predecessor hash is derived from: the content hash and LSN of the last record in the chain. */
  function Link(chain: seq<Rec>): Option<(Digest, Lsn)> {
    if chain == [] then None else Some((chain[|chain| - 1].contentHash, chain[|chain| - 1].lsn))
  }

  lemma LinkNext(c: Crypto, sorted: seq<Rec>, i: nat)
    requires i < |sorted|
    ensures Link(Chain(c, sorted[..i + 1])) ==
              if InChain(c, sorted[i]) then Some((sorted[i].contentHash, sorted[i].lsn))
              else Link(Chain(c, sorted[..i]))
  {
    ChainAppend(c, sorted, i);
  }

  datatype Verdict = Skipped | Valid | Tampered | MissingSignature

  /** What the signature pass says of record `i` of the sorted log. */
  function Judge(c: Crypto, hasKey: bool, sidecar: map<Lsn, Entry>, sorted: seq<Rec>, i: nat): Verdict
    requires i < |sorted|
  {
    var r := sorted[i];
    if !InChain(c, r) then Skipped
    else if r.lsn !in sidecar then MissingSignature
    else
      var entry := sidecar[r.lsn];
      var prevHash := PrevHash(c, Chain(c, sorted[..i]));
      if !ContentOk(c, r) || entry.contentHash != r.contentHash then Tampered
      else if hasKey && !c.verify(SigningPayload(c, r, prevHash), entry.signature) then Tampered
      else Valid
  }

  predicate Good(v: Verdict) {
    v.Skipped? || v.Valid?
  }

  function Count(c: Crypto, hasKey: bool, sidecar: map<Lsn, Entry>, sorted: seq<Rec>, n: nat, v: Verdict): nat
    requires n <= |sorted|
  {
    if n == 0 then 0
    else Count(c, hasKey, sidecar, sorted, n - 1, v) + (if Judge(c, hasKey, sidecar, sorted, n - 1) == v then 1 else 0)
  }

  /** The records in front of `n` with this verdict. */
  function Judged(c: Crypto, hasKey: bool, sidecar: map<Lsn, Entry>, sorted: seq<Rec>, n: nat, v: Verdict): set<nat>
    requires n <= |sorted|
  {
    set i: nat | i < n && Judge(c, hasKey, sidecar, sorted, i) == v
  }

  lemma JudgedNext(c: Crypto, hasKey: bool, sidecar: map<Lsn, Entry>, sorted: seq<Rec>, n: nat, v: Verdict)
    requires n < |sorted|
    ensures var before := Judged(c, hasKey, sidecar, sorted, n, v);
            && n !in before
            && Judged(c, hasKey, sidecar, sorted, n + 1, v)
               == if Judge(c, hasKey, sidecar, sorted, n) == v then before + {n} else before
  {
  }

  lemma {:induction false} CountIsNumber(c: Crypto, hasKey: bool, sidecar: map<Lsn, Entry>, sorted: seq<Rec>, n: nat,
      v: Verdict)
    requires n <= |sorted|
    ensures Count(c, hasKey, sidecar, sorted, n, v) == |Judged(c, hasKey, sidecar, sorted, n, v)|
  {
    if n > 0 {
      CountIsNumber(c, hasKey, sidecar, sorted, n - 1, v);
      JudgedNext(c, hasKey, sidecar, sorted, n - 1, v);
    }
  }

  // ---------------------------------------------------------------------------------------------
  // What a verdict means
  // ---------------------------------------------------------------------------------------------

  /** The record was signed. */
  predicate Signed(c: Crypto, r: Rec) {
    r.contentHash != c.zero
  }

  /** Record `j` is the last signed one in front of record `i`. */
  ghost predicate Precedes(c: Crypto, sorted: seq<Rec>, j: nat, i: nat)
    requires j < i <= |sorted|
  {
    Signed(c, sorted[j]) && forall k :: j < k < i ==> !Signed(c, sorted[k])
  }

  ghost predicate NonePrecedes(c: Crypto, sorted: seq<Rec>, i: nat)
    requires i <= |sorted|
  {
    forall k :: 0 <= k < i ==> !Signed(c, sorted[k])
  }

  /** The signature covers LSN, content hash and the hash derived from a predecessor with this hash and LSN. */
  predicate VerifiesBehind(c: Crypto, r: Rec, hash: Digest, lsn: Lsn, s: Signature) {
    c.verify(c.sha256([Word(r.lsn), Hash(r.contentHash), Hash(c.sha256([Hash(hash), Word(lsn)]))]), s)
  }

  /** It verifies behind the last signed record in front of it, or behind the zero hash at LSN 0 if there is none. */
  ghost predicate SignatureHolds(c: Crypto, sorted: seq<Rec>, i: nat, s: Signature)
    requires i < |sorted|
  {
    && (forall j: nat :: j < i && Precedes(c, sorted, j, i) ==>
          VerifiesBehind(c, sorted[i], sorted[j].contentHash, sorted[j].lsn, s))
    && (NonePrecedes(c, sorted, i) ==> VerifiesBehind(c, sorted[i], c.zero, 0, s))
  }

  /** Contents, sidecar entry and, given a key, signature of a record agree. */
  ghost predicate Holds(c: Crypto, hasKey: bool, sidecar: map<Lsn, Entry>, sorted: seq<Rec>, i: nat)
    requires i < |sorted|
  {
    var r := sorted[i];
    && r.lsn in sidecar && c.contentHash(r.body) == r.contentHash == sidecar[r.lsn].contentHash
    && (hasKey ==> SignatureHolds(c, sorted, i, sidecar[r.lsn].signature))
  }

  /** The records that are signed and hold, ... */
  ghost function ValidRecords(c: Crypto, hasKey: bool, sidecar: map<Lsn, Entry>, sorted: seq<Rec>): set<nat> {
    set i: nat | i < |sorted| && Signed(c, sorted[i]) && Holds(c, hasKey, sidecar, sorted, i)
  }

  /** ... that have an entry and do not hold, ... */
  ghost function TamperedRecords(c: Crypto, hasKey: bool, sidecar: map<Lsn, Entry>, sorted: seq<Rec>): set<nat> {
    set i: nat | i < |sorted| && Signed(c, sorted[i]) && sorted[i].lsn in sidecar
                 && !Holds(c, hasKey, sidecar, sorted, i)
  }

  /** ... and that have no entry. */
  ghost function UncoveredRecords(c: Crypto, sidecar: map<Lsn, Entry>, sorted: seq<Rec>): set<nat> {
    set i: nat | i < |sorted| && Signed(c, sorted[i]) && sorted[i].lsn !in sidecar
  }

  /** The chain's link in front of record `i` is the last signed record there, if there is one. */
  lemma {:induction false} LinkIsPredecessor(c: Crypto, sorted: seq<Rec>, i: nat)
    requires i <= |sorted|
    ensures Link(Chain(c, sorted[..i])).None? ==> NonePrecedes(c, sorted, i)
    ensures Link(Chain(c, sorted[..i])).Some? ==>
              exists j: nat :: j < i && Precedes(c, sorted, j, i)
                && Link(Chain(c, sorted[..i])) == Some((sorted[j].contentHash, sorted[j].lsn))
  {
    if i > 0 {
      LinkIsPredecessor(c, sorted, i - 1);
      LinkNext(c, sorted, i - 1);
      if Signed(c, sorted[i - 1]) {
        assert Precedes(c, sorted, i - 1, i);
      } else if Link(Chain(c, sorted[..i - 1])).Some? {
        var j: nat :| j < i - 1 && Precedes(c, sorted, j, i - 1)
          && Link(Chain(c, sorted[..i - 1])) == Some((sorted[j].contentHash, sorted[j].lsn));
        assert Precedes(c, sorted, j, i);
      }
    }
  }

  lemma OnePredecessor(c: Crypto, sorted: seq<Rec>, j: nat, k: nat, i: nat)
    requires j < i <= |sorted| && k < i && Precedes(c, sorted, j, i) && Precedes(c, sorted, k, i)
    ensures j == k
  {
  }

  /** The signature the pass checks is the one `SignatureHolds` speaks of. */
  lemma SignatureChecked(c: Crypto, sorted: seq<Rec>, i: nat, s: Signature)
    requires i < |sorted|
    ensures c.verify(SigningPayload(c, sorted[i], PrevHash(c, Chain(c, sorted[..i]))), s)
       <==> SignatureHolds(c, sorted, i, s)
  {
    LinkIsPredecessor(c, sorted, i);
    if Link(Chain(c, sorted[..i])).Some? {
      var j: nat :| j < i && Precedes(c, sorted, j, i)
        && Link(Chain(c, sorted[..i])) == Some((sorted[j].contentHash, sorted[j].lsn));
      forall k: nat | k < i && Precedes(c, sorted, k, i) ensures k == j {
        OnePredecessor(c, sorted, j, k, i);
      }
      assert !NonePrecedes(c, sorted, i);
    }
  }

  lemma JudgedExactly(c: Crypto, hasKey: bool, sidecar: map<Lsn, Entry>, sorted: seq<Rec>, i: nat)
    requires i < |sorted|
    ensures Judge(c, hasKey, sidecar, sorted, i) ==
              if !Signed(c, sorted[i]) then Skipped
              else if sorted[i].lsn !in sidecar then MissingSignature
              else if Holds(c, hasKey, sidecar, sorted, i) then Valid
              else Tampered
  {
    if sorted[i].lsn in sidecar { SignatureChecked(c, sorted, i, sidecar[sorted[i].lsn].signature); }
  }

  /** The three counts are the numbers of these records. */
  lemma CountsAreNumbers(c: Crypto, hasKey: bool, sidecar: map<Lsn, Entry>, sorted: seq<Rec>)
    ensures Count(c, hasKey, sidecar, sorted, |sorted|, Valid) == |ValidRecords(c, hasKey, sidecar, sorted)|
    ensures Count(c, hasKey, sidecar, sorted, |sorted|, Tampered) == |TamperedRecords(c, hasKey, sidecar, sorted)|
    ensures Count(c, hasKey, sidecar, sorted, |sorted|, MissingSignature) == |UncoveredRecords(c, sidecar, sorted)|
  {
    var n := |sorted|;
    CountIsNumber(c, hasKey, sidecar, sorted, n, Valid);
    CountIsNumber(c, hasKey, sidecar, sorted, n, Tampered);
    CountIsNumber(c, hasKey, sidecar, sorted, n, MissingSignature);
    forall i: nat | i < n {
      JudgedExactly(c, hasKey, sidecar, sorted, i);
    }
    assert Judged(c, hasKey, sidecar, sorted, n, Valid) == ValidRecords(c, hasKey, sidecar, sorted);
    assert Judged(c, hasKey, sidecar, sorted, n, Tampered) == TamperedRecords(c, hasKey, sidecar, sorted);
    assert Judged(c, hasKey, sidecar, sorted, n, MissingSignature) == UncoveredRecords(c, sidecar, sorted);
  }
}
