/**
 What a spill recovery delivers in terms of whole record ids (core/src/buffer/emergency_buffer.rs:371-460), of which
 deduplication sees only the low half, and which ids share one (core/src/sys/time.rs:191-222).
 */
module SpillTheorems {
  import opened LittleEndian
  import opened SpillFormat
  import opened Wrappers

  /** The dedup key of a spilled record is the low half of its id, whatever the rest holds. */
  lemma IdOfRecordBytes(r: Record)
    ensures ExtractRecordId(RecordBytes(r)) == Some(r.idLo)
    ensures |RecordBytes(r)| > 0 && RecordBytes(r)[0] != ENCRYPTED_FLAG
  {
    var data := RecordBytes(r);
    assert data[..4] == MAGIC;
    assert data[12..20] == ToBytes(r.idLo, 8);
    Pow256Values();
    BytesRoundTrip(r.idLo, 8);
  }

  // ---------------------------------------------------------------------------------------------
  // One record
  // ---------------------------------------------------------------------------------------------

  lemma FieldRoundTrip(n: nat, width: nat)
    requires || (width == 2 && n < 0x1_0000)
             || (width == 4 && n < 0x1_0000_0000)
             || (width == 8 && n < 0x1_0000_0000_0000_0000)
    ensures FromBytes(ToBytes(n, width)) == n
  {
    Pow256Values();
    assert Pow256(2) == 0x1_0000;
    BytesRoundTrip(n, width);
  }

  /** What follows the message. */
  function Trailer(r: Record): Bytes {
    ToBytes(r.threadId, 4) + ToBytes(32, 2) + r.contentHash + ToBytes(|r.auditTags|, 2) + r.auditTags
  }

  lemma TrailerBytes(r: Record)
    ensures var b := Trailer(r);
            && |b| == 40 + |r.auditTags|
            && b[..4] == ToBytes(r.threadId, 4) && b[4..6] == ToBytes(32, 2) && b[6..38] == r.contentHash
            && b[38..40] == ToBytes(|r.auditTags|, 2) && b[40..] == r.auditTags
  {
  }

  lemma RestBytes(r: Record)
    ensures var b, at := Rest(r), 21 + |r.message|;
            && |b| == at + 40 + |r.auditTags|
            && b[..8] == ToBytes(r.lsn, 8) && b[8..16] == ToBytes(r.timestamp, 8) && b[16..17] == [r.level]
            && b[17..19] == ToBytes(r.flags, 2)
            && b[19..21] == ToBytes(if |r.message| < 65_535 then |r.message| else 65_535, 2)
            && b[21..at] == r.message && b[at..] == Trailer(r)
  {
    var length := ToBytes(if |r.message| < 65_535 then |r.message| else 65_535, 2);
    var tail := r.message + Trailer(r);
    var lsn, time, flags := ToBytes(r.lsn, 8), ToBytes(r.timestamp, 8), ToBytes(r.flags, 2);
    assert Rest(r) == lsn + time + [r.level] + flags + length + tail;
    FixedParts(lsn, time, [r.level], flags, length, tail);
    assert tail[..|r.message|] == r.message && tail[|r.message|..] == Trailer(r);
    Behind(Rest(r), tail, |r.message|);
  }

  lemma FixedParts(a: Bytes, b: Bytes, c: Bytes, d: Bytes, e: Bytes, tail: Bytes)
    requires |a| == |b| == 8 && |c| == 1 && |d| == |e| == 2
    ensures var s := a + b + c + d + e + tail;
            s[..8] == a && s[8..16] == b && s[16..17] == c && s[17..19] == d && s[19..21] == e && s[21..] == tail
  {
  }

  lemma Behind(b: Bytes, tail: Bytes, n: nat)
    requires |b| >= 21 && b[21..] == tail && n <= |tail|
    ensures b[21..21 + n] == tail[..n] && b[21 + n..] == tail[n..]
  {
  }

  lemma FrontBytes(r: Record)
    ensures var b := RecordBytes(r);
            && b[..4] == [0x44, 0x4C, 0x4F, 0x47] && b[4..12] == ToBytes(r.idHi, 8) && b[12..20] == ToBytes(r.idLo, 8)
            && b[20..] == Rest(r)
  {
  }

  /** Field by field, from the LSN on. */
  lemma RestLayout(r: Record)
    ensures var b, at := Rest(r), 21 + |r.message|;
            && |b| == at + 40 + |r.auditTags|
            && FromBytes(b[..8]) == r.lsn && FromBytes(b[8..16]) == r.timestamp
            && b[16] == r.level && FromBytes(b[17..19]) == r.flags
            && FromBytes(b[19..21]) == (if |r.message| < 65_535 then |r.message| else 65_535)
            && b[21..at] == r.message && b[at..] == Trailer(r)
  {
    RestBytes(r);
    FieldRoundTrip(r.lsn, 8);
    FieldRoundTrip(r.timestamp, 8);
    FieldRoundTrip(r.flags, 2);
    FieldRoundTrip(if |r.message| < 65_535 then |r.message| else 65_535, 2);
  }

  lemma LowWord(n: nat)
    ensures FromBytes(ToBytes(n, 2)) == n % 65_536
  {
    var b := ToBytes(n, 2);
    assert b[0] == n % 256 && b[1] == n / 256 % 256 && b[1..] == ToBytes(n / 256, 1);
    Weights(b);
  }

  /** Field by field, from the thread id on. */
  lemma TrailerLayout(r: Record)
    ensures var b := Trailer(r);
            && |b| == 40 + |r.auditTags| && FromBytes(b[..4]) == r.threadId && FromBytes(b[4..6]) == 32
            && b[6..38] == r.contentHash && FromBytes(b[38..40]) == |r.auditTags| % 65_536 && b[40..] == r.auditTags
  {
    TrailerBytes(r);
    FieldRoundTrip(r.threadId, 4);
    FieldRoundTrip(32, 2);
    LowWord(|r.auditTags|);
  }

  /**
   The layout of a spilled record: magic, id, LSN, timestamp, level, flags, a message length that is capped, the
   message in full, thread id, the length and bytes of the content hash, tag length modulo 65,536 and tags.
   */
  lemma RecordLayout(r: Record)
    ensures var b, at := RecordBytes(r), 41 + |r.message|;
            && |b| == at + 40 + |r.auditTags| && b[..4] == [0x44, 0x4C, 0x4F, 0x47]
            && FromBytes(b[4..12]) == r.idHi && FromBytes(b[12..20]) == r.idLo
            && FromBytes(b[20..28]) == r.lsn && FromBytes(b[28..36]) == r.timestamp
            && b[36] == r.level && FromBytes(b[37..39]) == r.flags
            && FromBytes(b[39..41]) == (if |r.message| < 65_535 then |r.message| else 65_535)
            && b[41..at] == r.message && FromBytes(b[at..at + 4]) == r.threadId
            && FromBytes(b[at + 4..at + 6]) == 32 && b[at + 6..at + 38] == r.contentHash
            && FromBytes(b[at + 38..at + 40]) == |r.auditTags| % 65_536 && b[at + 40..] == r.auditTags
  {
    var b, at := RecordBytes(r), 41 + |r.message|;
    FrontBytes(r);
    FieldRoundTrip(r.idHi, 8);
    FieldRoundTrip(r.idLo, 8);
    RestLayout(r);
    Shifted(b, Rest(r), at);
    TrailerLayout(r);
    Ended(b, at, Trailer(r));
  }

  /** What the bytes from 20 on hold, in terms of the whole. */
  lemma Shifted(b: Bytes, rest: Bytes, at: nat)
    requires 41 <= at <= |b| && b[20..] == rest
    ensures b[20..28] == rest[..8] && b[28..36] == rest[8..16] && b[36] == rest[16] && b[37..39] == rest[17..19]
    ensures b[39..41] == rest[19..21] && b[41..at] == rest[21..at - 20] && b[at..] == rest[at - 20..]
  {
  }

  lemma Ended(b: Bytes, at: nat, rest: Bytes)
    requires at + 40 <= |b| && b[at..] == rest
    ensures b[at..at + 4] == rest[..4] && b[at + 4..at + 6] == rest[4..6] && b[at + 6..at + 38] == rest[6..38]
    ensures b[at + 38..at + 40] == rest[38..40] && b[at + 40..] == rest[40..]
  {
  }

  /** A payload opens to the record's bytes under the session key, whether or not it was sealed with it. */
  lemma OpenedPayload(c: Cipher, key: Option<Key>, session: Option<Key>, nonce: Nonce, r: Record)
    requires Sound(c) && Payload(c, key, nonce, r).Some? && (key.Some? ==> session == key)
    ensures Payload(c, key, nonce, r).value != []
    ensures Opened(c, session, Payload(c, key, nonce, r).value) == Some(RecordBytes(r))
  {
    IdOfRecordBytes(r);
    if key.Some? {
      var sealed := c.encrypt(key.value, nonce, RecordBytes(r)).value;
      var payload := [ENCRYPTED_FLAG] + nonce + sealed;
      assert payload[1..1 + NONCE_LEN] == nonce && payload[1 + NONCE_LEN..] == sealed;
    }
  }

  /**
   A record whose frame the recovery scan accepts: at most 1,048,576 - 81 bytes of message and tags, 29 less if
   sealed.
   */
  lemma AcceptedSize(c: Cipher, key: Option<Key>, nonce: Nonce, r: Record)
    requires Sound(c) && Payload(c, key, nonce, r).Some?
    ensures 1 <= |Payload(c, key, nonce, r).value| <= 1_048_576 == MAX_FRAME
       <==> |r.message| + |r.auditTags| <= 1_048_576 - (if key.Some? then 81 + 29 else 81)
  {
    assert |RecordBytes(r)| == 81 + |r.message| + |r.auditTags|;
    if key.Some? {
      assert |c.encrypt(key.value, nonce, RecordBytes(r)).value| == |RecordBytes(r)| + TAG_LEN;
    }
  }

  lemma {:induction false} FramedAppend(payloads: seq<Bytes>, p: Bytes)
    ensures Framed(payloads + [p]) == Framed(payloads) + Frame(p)
  {
    if payloads == [] {
      assert Framed([p]) == Frame(p) + Framed([p][1..]);
    } else {
      assert (payloads + [p])[0] == payloads[0] && (payloads + [p])[1..] == payloads[1..] + [p];
      FramedAppend(payloads[1..], p);
    }
  }

  lemma Cut(a: Bytes, b: Bytes, rest: Bytes, k: nat)
    requires |a| + |b| <= k <= |a| + |b| + |rest|
    ensures (a + b + rest)[..k] == a + b + rest[..k - |a| - |b|]
  {
  }

  lemma Parts(a: Bytes, b: Bytes, rest: Bytes)
    ensures (a + b + rest)[|a|..|a| + |b|] == b
    ensures (a + b + rest)[|a| + |b|..] == rest
  {
  }

  lemma FrontFrame(p: Bytes, rest: Bytes, k: nat)
    requires 8 <= k <= 8 + |p| + |rest| && |p| < 0x1_0000_0000_0000_0000
    ensures Announced((Frame(p) + rest)[..k]) == |p|
    ensures k >= 8 + |p| ==> (Frame(p) + rest)[..k][8..8 + |p|] == p
    ensures k >= 8 + |p| ==> (Frame(p) + rest)[..k][8 + |p|..] == rest[..k - 8 - |p|]
  {
    var length := ToBytes(|p|, 8);
    assert (Frame(p) + rest)[..k][..8] == length;
    Pow256Values();
    BytesRoundTrip(|p|, 8);
    if k >= 8 + |p| {
      Cut(length, p, rest, k);
      Parts(length, p, rest[..k - 8 - |p|]);
    }
  }

  /** A truncated file yields exactly its complete frames, up to the first oversized one. */
  lemma {:induction false} ScanTruncated(payloads: seq<Bytes>, k: nat)
    requires Writable(payloads) && k <= |Framed(payloads)|
    ensures Scan(Framed(payloads)[..k]) == payloads[..Recoverable(payloads, k)]
    decreases |payloads|
  {
    if payloads != [] && k >= 8 {
      var p, rest := payloads[0], payloads[1..];
      FrontFrame(p, Framed(rest), k);
      if k >= 8 + |p| && 0 < |p| <= MAX_FRAME {
        ScanTruncated(rest, k - 8 - |p|);
        assert payloads[..Recoverable(payloads, k)] == [p] + rest[..Recoverable(rest, k - 8 - |p|)];
      }
    }
  }

  /** An untouched file yields every frame, and the position returns to its end, exactly when no frame is refused. */
  lemma {:induction false} ScanComplete(payloads: seq<Bytes>)
    requires Writable(payloads)
    ensures Scan(Framed(payloads)) == payloads <==> Sized(payloads)
    ensures Sized(payloads) ==> Consumed(Framed(payloads)) == |Framed(payloads)|
    decreases |payloads|
  {
    if payloads != [] {
      var p, rest := payloads[0], payloads[1..];
      var all := Framed(payloads);
      FrontFrame(p, Framed(rest), |all|);
      assert all[..|all|] == all && Framed(rest)[..|Framed(rest)|] == Framed(rest);
      if 0 < |p| <= MAX_FRAME {
        ScanComplete(rest);
        assert Scan(all) == [p] + Scan(Framed(rest));
        assert Scan(all)[1..] == Scan(Framed(rest));
        SizedHead(payloads);
      }
    }
  }

  lemma SizedHead(payloads: seq<Bytes>)
    requires payloads != []
    ensures Sized(payloads) <==> 1 <= |payloads[0]| <= MAX_FRAME && Sized(payloads[1..])
  {
    if 1 <= |payloads[0]| <= MAX_FRAME && Sized(payloads[1..]) {
      forall i | 0 <= i < |payloads| ensures 1 <= |payloads[i]| <= MAX_FRAME {
        if i > 0 { assert payloads[i] == payloads[1..][i - 1]; }
      }
    }
  }

  lemma {:induction false} SeenGrows(c: Cipher, key: Option<Key>, a: seq<Bytes>, b: seq<Bytes>, seen: set<nat>)
    ensures Recover(c, key, a, seen).seen <= Recover(c, key, a + b, seen).seen
    decreases |b|
  {
    if b == [] {
      assert a + b == a;
    } else {
      var last := |b| - 1;
      SeenGrows(c, key, a, b[..last], seen);
      assert (a + b)[..|a + b| - 1] == a + b[..last];
    }
  }

  lemma {:induction false} AllBytesLength(records: seq<Record>)
    ensures |AllBytes(records)| == |records|
  {
    if records != [] { AllBytesLength(records[..|records| - 1]); }
  }

  /** Recovery delivers exactly the first record with each low half of an id, in push order. */
  lemma {:induction false} RecoverFirstHalves(c: Cipher, key: Option<Key>, payloads: seq<Bytes>, records: seq<Record>,
      seen: set<nat>)
    requires Opens(c, key, payloads, records)
    ensures Recover(c, key, payloads, seen) == Recovery(AllBytes(FirstHalves(records, seen)), seen + LowHalves(records))
    decreases |payloads|
  {
    if payloads == [] {
      assert LowHalves(records) == {};
    } else {
      var last := |payloads| - 1;
      assert Opened(c, key, payloads[last]) == Some(RecordBytes(records[last]));
      RecoverFirstHalves(c, key, payloads[..last], records[..last], seen);
      TakeRecord(records, seen);
    }
  }

  lemma TakeRecord(records: seq<Record>, seen: set<nat>)
    requires records != []
    ensures var last := |records| - 1;
            var earlier := records[..last];
            var before := Recovery(AllBytes(FirstHalves(earlier, seen)), seen + LowHalves(earlier));
            Take(before, Some(RecordBytes(records[last])))
            == Recovery(AllBytes(FirstHalves(records, seen)), seen + LowHalves(records))
  {
    var last := |records| - 1;
    var r, before := records[last], FirstHalves(records[..last], seen);
    IdOfRecordBytes(r);
    LowHalvesAppend(records);
    FirstHalfIffUnseen(records, seen);
    assert seen + LowHalves(records) == seen + LowHalves(records[..last]) + {r.idLo};
    if FirstHalf(records, last, seen) {
      assert FirstHalves(records, seen)[..|before|] == before;
    } else {
      assert FirstHalves(records, seen) == before;
    }
  }

  lemma LowHalvesAppend(records: seq<Record>)
    requires records != []
    ensures LowHalves(records) == LowHalves(records[..|records| - 1]) + {records[|records| - 1].idLo}
  {
    var last := |records| - 1;
    assert records == records[..last] + [records[last]];
  }

  lemma FirstHalfIffUnseen(records: seq<Record>, seen: set<nat>)
    requires records != []
    ensures var last := |records| - 1;
            FirstHalf(records, last, seen) <==> records[last].idLo !in seen + LowHalves(records[..last])
  {
    var last := |records| - 1;
    var earlier := records[..last];
    if records[last].idLo in LowHalves(earlier) {
      var r :| r in earlier && r.idLo == records[last].idLo;
      var j: nat :| j < last && earlier[j] == r;
      assert records[j].idLo == records[last].idLo;
    } else {
      forall j: nat | j < last ensures records[j].idLo != records[last].idLo {
        assert records[j] in earlier;
      }
    }
  }

  /** No low half is delivered twice, none that was seen before, and every other one is. */
  lemma {:induction false} HalvesAreDistinct(records: seq<Record>, seen: set<nat>)
    ensures LowHalves(FirstHalves(records, seen)) == LowHalves(records) - seen
    ensures |LowHalves(FirstHalves(records, seen))| == |FirstHalves(records, seen)|
    decreases |records|
  {
    if records != [] {
      HalvesAreDistinct(records[..|records| - 1], seen);
      LowHalvesAppend(records);
      FirstHalfIffUnseen(records, seen);
      FirstHalvesGrow(records, seen);
    }
  }

  lemma FirstHalvesGrow(records: seq<Record>, seen: set<nat>)
    requires records != []
    ensures var last := |records| - 1;
            var before := FirstHalves(records[..last], seen);
            if FirstHalf(records, last, seen) then
              FirstHalves(records, seen) == before + [records[last]]
              && LowHalves(FirstHalves(records, seen)) == LowHalves(before) + {records[last].idLo}
            else FirstHalves(records, seen) == before
  {
    var last := |records| - 1;
    var before := FirstHalves(records[..last], seen);
    if FirstHalf(records, last, seen) {
      assert FirstHalves(records, seen)[..|before|] == before;
      LowHalvesAppend(FirstHalves(records, seen));
    }
  }

  lemma TakeRemembered(before: Recovery, plain: Option<Bytes>)
    requires plain.Some? && ExtractRecordId(plain.value).Some? ==> ExtractRecordId(plain.value).value in before.seen
    requires NoIds(before.delivered)
    ensures Take(before, plain).seen == before.seen && NoIds(Take(before, plain).delivered)
  {
  }

  /** A repeat with the ids still remembered delivers nothing but payloads that carry no id. */
  lemma {:induction false} RepeatDeliversNoId(c: Cipher, key: Option<Key>, payloads: seq<Bytes>, seen: set<nat>,
      all: set<nat>)
    requires Recover(c, key, payloads, seen).seen <= all
    ensures Recover(c, key, payloads, all).seen == all && NoIds(Recover(c, key, payloads, all).delivered)
    decreases |payloads|
  {
    if payloads != [] {
      var last := |payloads| - 1;
      var plain := Opened(c, key, payloads[last]);
      assert Recover(c, key, payloads, seen) == Take(Recover(c, key, payloads[..last], seen), plain);
      RepeatDeliversNoId(c, key, payloads[..last], seen, all);
      TakeRemembered(Recover(c, key, payloads[..last], all), plain);
    }
  }

  /** After a recovery of spilled records a repeat delivers nothing at all. */
  lemma {:induction false} RepeatDeliversNothing(c: Cipher, key: Option<Key>, payloads: seq<Bytes>,
      records: seq<Record>, seen: set<nat>)
    requires Opens(c, key, payloads, records)
    ensures Recover(c, key, payloads, Recover(c, key, payloads, seen).seen) == Recovery([], seen + LowHalves(records))
  {
    RecoverFirstHalves(c, key, payloads, records, seen);
    var all := seen + LowHalves(records);
    RecoverFirstHalves(c, key, payloads, records, all);
    HalvesAreDistinct(records, all);
    assert LowHalves(records) - all == {};
    assert all + LowHalves(records) == all;
  }

  lemma IdsAppend(records: seq<Record>)
    requires records != []
    ensures Ids(records) == Ids(records[..|records| - 1]) + {Id(records[|records| - 1])}
  {
    assert records == records[..|records| - 1] + [records[|records| - 1]];
  }

  lemma FirstIffNew(records: seq<Record>, earlier: set<RecordId>)
    requires records != []
    ensures var last := |records| - 1;
            First(records, last, earlier) <==> Id(records[last]) !in earlier + Ids(records[..last])
  {
    var last := |records| - 1;
    var before := records[..last];
    if Id(records[last]) in Ids(before) {
      var r :| r in before && Id(r) == Id(records[last]);
      var j: nat :| j < last && before[j] == r;
      assert Id(records[j]) == Id(records[last]);
    } else {
      forall j: nat | j < last ensures Id(records[j]) != Id(records[last]) {
        assert records[j] in before;
      }
    }
  }

  /** No id is among the firsts twice, none recovered earlier is, and every other one is. */
  lemma {:induction false} FirstsAreDistinct(records: seq<Record>, earlier: set<RecordId>)
    ensures Ids(Firsts(records, earlier)) == Ids(records) - earlier
    ensures |Ids(Firsts(records, earlier))| == |Firsts(records, earlier)|
    decreases |records|
  {
    if records != [] {
      var last := |records| - 1;
      var before := Firsts(records[..last], earlier);
      FirstsAreDistinct(records[..last], earlier);
      IdsAppend(records);
      FirstIffNew(records, earlier);
      if First(records, last, earlier) {
        assert Firsts(records, earlier)[..|before|] == before;
        IdsAppend(Firsts(records, earlier));
      } else {
        assert Firsts(records, earlier) == before;
      }
    }
  }

  lemma NoSharedHalfInit(records: seq<Record>, earlier: set<RecordId>)
    requires records != []
    ensures var last := |records| - 1;
            NoSharedHalf(records, earlier) <==> NoSharedHalf(records[..last], earlier) && Alone(records, last, earlier)
  {
    var last := |records| - 1;
    forall i: nat | i < last ensures Alone(records, i, earlier) <==> Alone(records[..last], i, earlier) {
    }
  }

  lemma FirstHalfIsFirst(records: seq<Record>, i: nat, earlier: set<RecordId>)
    requires i < |records| && FirstHalf(records, i, Halves(earlier))
    ensures First(records, i, earlier)
  {
    HalfIn(Id(records[i]), earlier);
  }

  lemma HalfIn(id: RecordId, ids: set<RecordId>)
    ensures id in ids ==> id.lo in Halves(ids)
  {
  }

  /** If a record repeats an id and is not alone, ids already share a half in front of it. */
  lemma SharedInFront(records: seq<Record>, k: nat, earlier: set<RecordId>)
    requires records != [] && k < |records| - 1 && Id(records[k]) == Id(records[|records| - 1])
    requires !Alone(records, |records| - 1, earlier)
    ensures !NoSharedHalf(records[..|records| - 1], earlier)
  {
    var last := |records| - 1;
    var before := records[..last];
    if records[last].idLo in Halves(earlier) {
      assert !Alone(before, k, earlier);
    } else {
      var j: nat :| j < last && records[j].idLo == records[last].idLo && records[j].idHi != records[last].idHi;
      HalfIn(Id(records[j]), earlier);
      assert before[j] == records[j] && before[k] == records[k];
      assert !Alone(before, if j < k then k else j, earlier);
    }
  }

  /** With no id shared in front, the last record is lost exactly if it is the first of its id and not alone. */
  lemma LastIsLostExactlyWhen(records: seq<Record>, earlier: set<RecordId>)
    requires records != [] && NoSharedHalf(records[..|records| - 1], earlier)
    ensures var last := |records| - 1;
            First(records, last, earlier) && !FirstHalf(records, last, Halves(earlier))
            <==> !Alone(records, last, earlier)
  {
    var last := |records| - 1;
    forall k: nat | k < last && !Alone(records, last, earlier) ensures Id(records[k]) != Id(records[last]) {
      if Id(records[k]) == Id(records[last]) { SharedInFront(records, k, earlier); }
    }
  }

  /**
   Deduplication by low half keeps the first record of every id exactly when no two ids share their low half;
   otherwise it keeps fewer.
   */
  lemma {:induction false} DedupLosesNothingExactlyWhen(records: seq<Record>, earlier: set<RecordId>)
    ensures |FirstHalves(records, Halves(earlier))| <= |Firsts(records, earlier)|
    ensures NoSharedHalf(records, earlier) <==> |FirstHalves(records, Halves(earlier))| == |Firsts(records, earlier)|
    ensures NoSharedHalf(records, earlier) <==> FirstHalves(records, Halves(earlier)) == Firsts(records, earlier)
    decreases |records|
  {
    if records != [] {
      var last := |records| - 1;
      DedupLosesNothingExactlyWhen(records[..last], earlier);
      NoSharedHalfInit(records, earlier);
      if FirstHalf(records, last, Halves(earlier)) { FirstHalfIsFirst(records, last, earlier); }
      if NoSharedHalf(records[..last], earlier) { LastIsLostExactlyWhen(records, earlier); }
    }
  }

  /** Two records whose ids differ in the high half only: the second one is not recovered. */
  lemma SharedHalfIsDropped(c: Cipher, key: Option<Key>, r: Record, later: Record)
    requires r.idLo == later.idLo && r.idHi != later.idHi
    ensures Recover(c, key, [RecordBytes(r), RecordBytes(later)], {}) == Recovery([RecordBytes(r)], {r.idLo})
    ensures Firsts([r, later], {}) == [r, later]
  {
    IdOfRecordBytes(r);
    IdOfRecordBytes(later);
    var payloads := [RecordBytes(r), RecordBytes(later)];
    var one := [RecordBytes(r)];
    assert payloads[..1] == one && |one[..0]| == 0;
    assert Recover(c, key, one[..0], {}) == Recovery([], {});
    assert Recover(c, key, payloads[..1], {}) == Take(Recovery([], {}), Some(RecordBytes(r)));
    assert [r, later][..1] == [r] && |[r][..0]| == 0;
    assert Firsts([r], {}) == [r];
  }

  lemma HalvesOfIds(records: seq<Record>, earlier: set<RecordId>)
    ensures Halves(earlier) + LowHalves(records) == Halves(earlier + Ids(records))
  {
    forall h ensures h in Halves(earlier) + LowHalves(records) <==> h in Halves(earlier + Ids(records)) {
      if h in LowHalves(records) {
        var r :| r in records && r.idLo == h;
        assert Id(r) in Ids(records);
      }
      if h in Halves(earlier + Ids(records)) {
        var id :| id in earlier + Ids(records) && id.lo == h;
        if id in Ids(records) {
          var r :| r in records && Id(r) == id;
        }
      }
    }
  }

  /** Recovery delivers the first record of each id, in push order, exactly when no two ids share their low half. */
  lemma RecoverFirsts(c: Cipher, key: Option<Key>, payloads: seq<Bytes>, records: seq<Record>, earlier: set<RecordId>)
    requires Opens(c, key, payloads, records)
    ensures Recover(c, key, payloads, Halves(earlier))
         == Recovery(AllBytes(FirstHalves(records, Halves(earlier))), Halves(earlier + Ids(records)))
    ensures |AllBytes(FirstHalves(records, Halves(earlier)))| <= |Firsts(records, earlier)|
    ensures Recover(c, key, payloads, Halves(earlier)).delivered == AllBytes(Firsts(records, earlier)) <==>
              NoSharedHalf(records, earlier)
  {
    RecoverFirstHalves(c, key, payloads, records, Halves(earlier));
    HalvesOfIds(records, earlier);
    DedupLosesNothingExactlyWhen(records, earlier);
    AllBytesLength(FirstHalves(records, Halves(earlier)));
    AllBytesLength(Firsts(records, earlier));
  }

  /**
   Recovery from a spill file cut off anywhere: the first record of each id among the complete frames, under the same
   condition.
   */
  lemma SpillRecovery(c: Cipher, key: Option<Key>, payloads: seq<Bytes>, records: seq<Record>, earlier: set<RecordId>,
      k: nat)
    requires Opens(c, key, payloads, records) && Sized(payloads) && k <= |Framed(payloads)|
    ensures var complete := records[..Recoverable(payloads, k)];
            var recovery := Recover(c, key, Scan(Framed(payloads)[..k]), Halves(earlier));
            && recovery.seen == Halves(earlier + Ids(complete))
            && (recovery.delivered == AllBytes(Firsts(complete, earlier)) <==> NoSharedHalf(complete, earlier))
    ensures var recovery := Recover(c, key, Scan(Framed(payloads)), Halves(earlier));
            && recovery.seen == Halves(earlier + Ids(records))
            && (recovery.delivered == AllBytes(Firsts(records, earlier)) <==> NoSharedHalf(records, earlier))
  {
    ScanTruncated(payloads, k);
    RecoverFirsts(c, key, payloads[..Recoverable(payloads, k)], records[..Recoverable(payloads, k)], earlier);
    ScanComplete(payloads);
    RecoverFirsts(c, key, payloads, records, earlier);
  }

  /** Two ids of one source share their low half exactly when their sequence numbers agree modulo 4,194,304. */
  lemma HalvesRepeatExactlyWhen(fingerprint: U64, t: U64, u: U64, m: nat, n: nat)
    requires GeneratedId(fingerprint, t, m).Some? && GeneratedId(fingerprint, u, n).Some?
    ensures GeneratedId(fingerprint, t, m).value.lo == GeneratedId(fingerprint, u, n).value.lo <==>
              m % SEQUENCES == n % SEQUENCES
  {
  }

  /** Records drawn within 4,194,304 consecutive sequence numbers share no low half, so none is lost. */
  lemma OnePeriodSharesNothing(records: seq<Record>, fingerprint: U64, times: seq<U64>, sequences: seq<nat>, base: nat)
    requires Generated(records, fingerprint, times, sequences)
    requires forall i :: 0 <= i < |sequences| ==> base <= sequences[i] < base + SEQUENCES
    ensures NoSharedHalf(records, {}) && FirstHalves(records, {}) == Firsts(records, {})
  {
    forall i: nat | i < |records| ensures Alone(records, i, {}) {
      forall j: nat | j < i && records[j].idLo == records[i].idLo ensures records[j].idHi == records[i].idHi {
        HalvesRepeatExactlyWhen(fingerprint, times[j], times[i], sequences[j], sequences[i]);
        SameResidue(sequences[j], sequences[i], base);
      }
    }
    DedupLosesNothingExactlyWhen(records, {});
    assert Halves({}) == {};
  }

  lemma SameResidue(m: nat, n: nat, base: nat)
    requires m % SEQUENCES == n % SEQUENCES && base <= m < base + SEQUENCES && base <= n < base + SEQUENCES
    ensures m == n
  {
  }

  // ---------------------------------------------------------------------------------------------
  // Any payload and frame
  // ---------------------------------------------------------------------------------------------

  /** A frame is a little-endian 64-bit length and the payload. */
  lemma FrameBytes(payload: Bytes)
    requires |payload| < 0x1_0000_0000_0000_0000
    ensures |Frame(payload)| == 8 + |payload| && FromBytes(Frame(payload)[..8]) == |payload|
    ensures Frame(payload)[8..] == payload
  {
    Pow256Values();
    BytesRoundTrip(|payload|, 8);
    assert Frame(payload)[..8] == ToBytes(|payload|, 8);
  }

  /**
   When a payload opens, whoever wrote it: anything that does not start with 0xFF is taken as it is; the rest needs 29
   bytes, a key, and that the bytes behind the nonce decrypt under it.
   */
  lemma OpenedExactlyWhen(c: Cipher, key: Option<Key>, payload: Bytes, plain: Bytes)
    ensures Opened(c, key, payload) == Some(plain) <==>
              if payload == [] || payload[0] != 0xFF then plain == payload
              else |payload| >= 29 && key.Some? && c.decrypt(key.value, payload[1..13], payload[13..]) == Some(plain)
  {
  }

  /** The dedup key of any plaintext: bytes 12 to 20, behind the four of the magic, if there are as many. */
  lemma ExtractedExactlyWhen(data: Bytes, id: nat)
    ensures ExtractRecordId(data) == Some(id) <==>
              && |data| >= 20 && data[0] == 0x44 && data[1] == 0x4C && data[2] == 0x4F && data[3] == 0x47
              && id == FromBytes(data[12..16]) + 0x1_0000_0000 * FromBytes(data[16..20])
  {
    if |data| >= 20 {
      assert data[..4] == [data[0], data[1], data[2], data[3]];
      var half := data[12..20];
      Weights(half);
      assert half[..4] == data[12..16] && half[4..] == data[16..20];
    }
  }
}
