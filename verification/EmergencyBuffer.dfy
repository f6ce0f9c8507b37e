/** The emergency spill buffer as an object (core/src/buffer/emergency_buffer.rs:101-488). */
module EmergencyBuffer {
  import opened LittleEndian
  import opened SpillFile
  import opened SpillFormat
  import opened SpillTheorems
  import opened Wrappers

  const DEFAULT_EMERGENCY_MAX_BYTES: nat := 512 * 1024 * 1024
  const DEFAULT_EMERGENCY_MAX_RECORDS: nat := 1_000_000

  /** Beyond this many remembered ids the recovery forgets half of them. */
  const MAX_SEEN: nat := 1_000_000

  datatype PushResult = Written | Dropped | NotActive | Error

  lemma OpensNext(c: Cipher, key: Option<Key>, payloads: seq<Bytes>, records: seq<Record>, payload: Bytes,
      record: Record)
    requires Opens(c, key, payloads, records) && Opened(c, key, payload) == Some(RecordBytes(record))
    ensures Opens(c, key, payloads + [payload], records + [record])
  {
  }

  /** Removes half of the ids; which ones depends on the hash order. */
  method ForgetHalf(seen: set<nat>) returns (kept: set<nat>)
    ensures kept <= seen && |kept| == |seen| - |seen| / 2
  {
    kept := seen;
    for i := 0 to |seen| / 2
      invariant kept <= seen && |kept| == |seen| - i
    {
      assert kept != {};
      var id :| id in kept;
      kept := kept - {id};
    }
  }

  // ---------------------------------------------------------------------------------------------
  // The recovery loop
  // ---------------------------------------------------------------------------------------------

  /** The spill file has been visited as far as `position`. */
  ghost predicate Visited(content: Bytes, visited: seq<Bytes>, position: nat) {
    && position <= |content|
    && Scan(content) == visited + Scan(content[position..])
    && Consumed(content) == position + Consumed(content[position..])
  }

  lemma VisitNone(content: Bytes)
    ensures Visited(content, [], 0)
  {
    assert content[0..] == content && [] + Scan(content) == Scan(content);
  }

  lemma LengthAt(content: Bytes, position: nat)
    requires position + 8 <= |content|
    ensures Announced(content[position..]) == FromBytes(content[position..position + 8])
  {
    assert content[position..][..8] == content[position..position + 8];
  }

  lemma VisitNext(content: Bytes, visited: seq<Bytes>, position: nat, length: nat)
    requires Visited(content, visited, position) && !Stops(content[position..])
    requires length == Announced(content[position..])
    ensures Visited(content, visited + [content[position + 8..position + 8 + length]], position + 8 + length)
  {
    var rest, data := content[position..], content[position + 8..position + 8 + length];
    assert rest[8 + length..] == content[position + 8 + length..] && rest[8..8 + length] == data;
    assert visited + ([data] + Scan(rest[8 + length..])) == visited + [data] + Scan(rest[8 + length..]);
  }

  lemma VisitEnd(content: Bytes, visited: seq<Bytes>, position: nat)
    requires Visited(content, visited, position) && Stops(content[position..])
    ensures Scan(content) == visited
    ensures var rest := content[position..];
            Consumed(content) ==
              if |rest| >= 8 && (Announced(rest) == 0 || Announced(rest) > MAX_FRAME) then position + 8 else |content|
  {
    assert visited + [] == visited;
  }

  /** Unless ids had to be forgotten, the callbacks and the remembered ids are those of `Recover`. */
  ghost predicate Recovers(c: Cipher, key: Option<Key>, payloads: seq<Bytes>, before: set<nat>, delivered: seq<Bytes>,
      seen: set<nat>) {
    |Recover(c, key, payloads, before).seen| <= MAX_SEEN ==>
      Recover(c, key, payloads, before) == Recovery(delivered, seen)
  }

  /** The same for the frames visited so far, as long as the whole file makes nothing be forgotten. */
  ghost predicate Tracks(c: Cipher, key: Option<Key>, content: Bytes, visited: seq<Bytes>, before: set<nat>,
      delivered: seq<Bytes>, seen: set<nat>) {
    |Recover(c, key, Scan(content), before).seen| <= MAX_SEEN ==>
      Recover(c, key, visited, before) == Recovery(delivered, seen)
  }

  lemma TrackNext(c: Cipher, key: Option<Key>, content: Bytes, visited: seq<Bytes>, data: Bytes, position: nat,
      before: set<nat>, delivered: seq<Bytes>, seen: set<nat>)
    requires Visited(content, visited + [data], position) && Tracks(c, key, content, visited, before, delivered, seen)
    ensures var next := Take(Recovery(delivered, seen), Opened(c, key, data));
            && Tracks(c, key, content, visited + [data], before, next.delivered, next.seen)
            && (|Recover(c, key, Scan(content), before).seen| <= MAX_SEEN ==> |next.seen| <= MAX_SEEN)
  {
    assert (visited + [data])[..|visited|] == visited;
    SeenGrows(c, key, visited + [data], Scan(content[position..]), before);
    CardinalityGrows(Recover(c, key, visited + [data], before).seen, Recover(c, key, Scan(content), before).seen);
  }

  lemma CardinalityGrows(a: set<nat>, b: set<nat>)
    requires a <= b
    ensures |a| <= |b|
  {
    assert b == a + (b - a);
  }

  /** Reads the next frame; `None` at the end of the file, at a length of zero and at one over the limit. */
  method ReadFrame(content: Bytes, from: nat, ghost visited: seq<Bytes>) returns (data: Option<Bytes>, position: nat)
    requires Visited(content, visited, from)
    ensures data.Some? ==> Visited(content, visited + [data.value], position) && position > from
    ensures data.None? ==> Scan(content) == visited && position == Consumed(content)
  {
    if from + 8 > |content| {
      VisitEnd(content, visited, from);
      return None, |content|;
    }
    var length := FromBytes(content[from..from + 8]);
    LengthAt(content, from);
    if length == 0 || length > 1024 * 1024 {
      VisitEnd(content, visited, from);
      return None, from + 8;
    }
    if from + 8 + length > |content| {
      VisitEnd(content, visited, from);
      return None, |content|;
    }
    VisitNext(content, visited, from, length);
    return Some(content[from + 8..from + 8 + length]), from + 8 + length;
  }

  /** Whether the record was seen before; if not, its id is remembered. */
  method Remember(plain: Bytes, seen: set<nat>) returns (duplicate: bool, kept: set<nat>)
    ensures var id := ExtractRecordId(plain);
            && (duplicate <==> id.Some? && id.value in seen)
            && (duplicate || id.None? ==> kept == seen)
            && (!duplicate && id.Some? && |seen + {id.value}| <= MAX_SEEN ==> kept == seen + {id.value})
            && (!duplicate && id.Some? && |seen + {id.value}| > MAX_SEEN ==>
                  kept <= seen + {id.value} && |kept| == |seen + {id.value}| - |seen + {id.value}| / 2)
  {
    duplicate, kept := false, seen;
    var id := ExtractRecordId(plain);
    if id.Some? {
      if id.value in seen { return true, seen; }
      kept := seen + {id.value};
      if |kept| > 1_000_000 {
        kept := ForgetHalf(kept);
      }
    }
  }

  class EmergencyBuffer {
    const cipher: Cipher
    const maxBytes: nat
    const maxRecords: nat
    var active: bool
    var recordCount: nat
    var byteCount: nat
    var totalSpilled: nat
    var totalRecovered: nat
    var totalDropped: nat
    var totalActivations: nat
    var file: Option<OpenFile>
    var seen: set<nat>
    var auditEncryption: bool
    var key: Option<Key>

    /** The records written since the file was created, and the frame made of each. */
    ghost var records: seq<Record>
    ghost var payloads: seq<Bytes>

    ghost predicate Valid()
      reads this
    {
      && |payloads| == |records|
      && recordCount == |payloads| && byteCount == |Framed(payloads)|
      && (file.Some? ==> file.value.position <= |file.value.content|)
      && (file.None? ==> payloads == []) && NoneEmpty(payloads)
      && (auditEncryption ==> key.Some?)
    }

    /** The file holds every frame written, and the next write goes behind the last. */
    ghost predicate Intact()
      reads this
    {
      Holds(file, payloads)
    }

    /** Every frame still opens under the present session key. */
    ghost predicate Readable()
      reads this
    {
      Opens(cipher, key, payloads, records)
    }

    constructor (cipher: Cipher)
      ensures Valid() && !active && file.None? && seen == {} && !auditEncryption && key.None? && records == []
      ensures payloads == []
      ensures this.cipher == cipher && maxBytes == 536_870_912 && maxRecords == 1_000_000
      ensures totalSpilled == totalRecovered == totalDropped == totalActivations == 0
    {
      this.cipher, maxBytes, maxRecords := cipher, DEFAULT_EMERGENCY_MAX_BYTES, DEFAULT_EMERGENCY_MAX_RECORDS;
      active, file, seen, auditEncryption, key := false, None, {}, false, None;
      recordCount, byteCount, totalSpilled, totalRecovered, totalDropped, totalActivations := 0, 0, 0, 0, 0, 0;
      records, payloads := [], [];
    }

    constructor WithLimits(cipher: Cipher, maxBytes: nat, maxRecords: nat)
      ensures Valid() && !active && file.None? && seen == {} && !auditEncryption && key.None? && records == []
      ensures payloads == []
      ensures this.cipher == cipher && this.maxBytes == maxBytes && this.maxRecords == maxRecords
      ensures totalSpilled == totalRecovered == totalDropped == totalActivations == 0
    {
      this.cipher, this.maxBytes, this.maxRecords := cipher, maxBytes, maxRecords;
      active, file, seen, auditEncryption, key := false, None, {}, false, None;
      recordCount, byteCount, totalSpilled, totalRecovered, totalDropped, totalActivations := 0, 0, 0, 0, 0, 0;
      records, payloads := [], [];
    }

    /** Installs a new session key; frames sealed under an earlier one no longer open. */
    method EnableAuditEncryption(sessionKey: Key)
      requires Valid()
      modifies this`auditEncryption, this`key
      ensures Valid() && auditEncryption && key == Some(sessionKey)
    {
      key := Some(sessionKey);
      auditEncryption := true;
    }

    method Activate(canOpen: bool) returns (r: Result<(), string>)
      requires Valid()
      modifies this`active, this`file, this`recordCount, this`byteCount, this`totalActivations
      modifies this`records, this`payloads
      ensures Valid()
      ensures r.Ok? <==> old(active) || canOpen
      ensures active == (old(active) || canOpen)
      ensures old(active) || !canOpen ==>
                && file == old(file) && records == old(records) && payloads == old(payloads)
                && totalActivations == old(totalActivations)
      ensures !old(active) && canOpen ==>
                Intact() && Readable() && records == [] && totalActivations == old(totalActivations) + 1
    {
      if active { return Ok(()); }
      if !canOpen { return Err("Emergency buffer: cannot open spill file"); }
      file := Some(OpenFile([], 0));
      records, payloads := [], [];
      recordCount := 0;
      byteCount := 0;
      active := true;
      totalActivations := totalActivations + 1;
      return Ok(());
    }

    method Deactivate()
      requires Valid()
      modifies this`active, this`file, this`recordCount, this`byteCount, this`records, this`payloads
      ensures Valid() && !active
      ensures old(active) ==> file.None? && records == []
      ensures !old(active) ==> file == old(file) && records == old(records) && payloads == old(payloads)
    {
      if !active { return; }
      active := false;
      file := None;
      records, payloads := [], [];
      recordCount := 0;
      byteCount := 0;
    }

    ghost predicate Full()
      reads this
    {
      recordCount >= maxRecords || byteCount >= maxBytes
    }

    /** The payload a push would write. */
    ghost function ToWrite(record: Record, nonce: Nonce): Option<Bytes>
      reads this
    {
      Payload(cipher, if auditEncryption && record.level == AUDIT then key else None, nonce, record)
    }

    /** Appends one frame, or changes nothing but the count of drops; the record stays recoverable. */
    method Push(record: Record, nonce: Nonce) returns (r: PushResult)
      requires Valid()
      modifies this`file, this`recordCount, this`byteCount, this`totalSpilled, this`totalDropped
      modifies this`records, this`payloads
      ensures Valid()
      ensures r.Dropped? <==> old(active && Full())
      ensures r.Error? <==> old(active && !Full() && ToWrite(record, nonce).None?)
      ensures r.Written? <==> old(active && !Full() && ToWrite(record, nonce).Some? && file.Some?)
      ensures totalDropped == old(totalDropped) + (if r.Dropped? then 1 else 0)
      ensures totalSpilled == old(totalSpilled) + (if r.Written? then 1 else 0)
      ensures !r.Written? ==> file == old(file) && records == old(records) && payloads == old(payloads)
      ensures r.Written? ==>
                records == old(records) + [record] && payloads == old(payloads + [ToWrite(record, nonce).value])
      ensures r.Written? ==>
                var payload := payloads[|payloads| - 1];
                payload != [] && (payload[0] == 0xFF <==> auditEncryption && record.level == 6)
      ensures old(Intact()) ==> Intact()
      ensures Sound(cipher) && old(Readable()) ==> Readable()
    {
      if !active { return NotActive; }
      if recordCount >= maxRecords || byteCount >= maxBytes {
        totalDropped := totalDropped + 1;
        return Dropped;
      }
      var payload := Seal(record, nonce);
      if payload.None? { return Error; }
      if file.None? { return NotActive; }
      Write(payload.value, record, nonce);
      totalSpilled := totalSpilled + 1;
      return Written;
    }

    /** The record's bytes, encrypted if it is an audit record and encryption is on. */
    method Seal(record: Record, nonce: Nonce) returns (payload: Option<Bytes>)
      requires Valid()
      ensures payload == ToWrite(record, nonce)
      ensures payload.Some? ==>
                payload.value != [] && (payload.value[0] == 0xFF <==> auditEncryption && record.level == 6)
      ensures payload.Some? && auditEncryption && record.level == 6 ==>
                && |payload.value| >= 13 && payload.value[1..13] == nonce
                && cipher.encrypt(key.value, nonce, RecordBytes(record)) == Some(payload.value[13..])
      ensures !(auditEncryption && record.level == 6) ==> payload == Some(RecordBytes(record))
    {
      IdOfRecordBytes(record);
      var recordBytes := RecordBytes(record);
      if auditEncryption && record.level == AUDIT {
        var sealed := cipher.encrypt(key.value, nonce, recordBytes);
        return if sealed.None? then None else Some([ENCRYPTED_FLAG] + nonce + sealed.value);
      }
      return Some(recordBytes);
    }

    /** Length prefix, payload, counters. */
    method Write(payload: Bytes, ghost record: Record, ghost nonce: Nonce)
      requires Valid() && file.Some? && ToWrite(record, nonce) == Some(payload)
      modifies this`file, this`recordCount, this`byteCount, this`records, this`payloads
      ensures Valid() && file == Some(WriteFrame(old(file).value, payload))
      ensures recordCount == old(recordCount) + 1 && byteCount == old(byteCount) + |payload| + 8
      ensures records == old(records) + [record] && payloads == old(payloads) + [payload]
      ensures old(Intact()) ==> Intact()
      ensures Sound(cipher) && old(Readable()) ==> Readable()
    {
      PushKeeps(record, nonce, payload);
      file := Some(WriteAll(file.value, ToBytes(|payload|, 8)));
      file := Some(WriteAll(file.value, payload));
      records, payloads := records + [record], payloads + [payload];
      recordCount := recordCount + 1;
      byteCount := byteCount + |payload| + 8;
    }

    lemma PushKeeps(record: Record, nonce: Nonce, payload: Bytes)
      requires Valid() && file.Some? && ToWrite(record, nonce) == Some(payload)
      ensures |Framed(payloads + [payload])| == |Framed(payloads)| + |payload| + 8 && NoneEmpty(payloads + [payload])
      ensures Intact() ==> Holds(Some(WriteFrame(file.value, payload)), payloads + [payload])
      ensures Sound(cipher) && Readable() ==> Opens(cipher, key, payloads + [payload], records + [record])
    {
      FramedAppend(payloads, payload);
      IdOfRecordBytes(record);
      if Intact() { WriteHolds(file, payloads, payload); }
      if Sound(cipher) && Readable() {
        OpenedPayload(cipher, if auditEncryption && record.level == AUDIT then key else None, key, nonce, record);
        OpensNext(cipher, key, payloads, records, payload, record);
      }
    }

    /** The recovery loop: reads the frames from the start of the file and hands each new record to the callback. */
    method ReadBack(content: Bytes) returns (recovered: nat, delivered: seq<Bytes>, kept: set<nat>, position: nat)
      ensures recovered == |delivered| && position == Consumed(content)
      ensures Recovers(cipher, key, Scan(content), seen, delivered, kept)
    {
      recovered, delivered, kept, position := 0, [], seen, 0;
      var more := true;
      ghost var visited: seq<Bytes> := [];
      VisitNone(content);
      while more
        invariant if more then Visited(content, visited, position)
                  else Scan(content) == visited && position == Consumed(content)
        invariant recovered == |delivered| && Tracks(cipher, key, content, visited, seen, delivered, kept)
        decreases more, |content| - position
      {
        var data;
        data, position := ReadFrame(content, position, visited);
        if data.None? {
          more := false;
          continue;
        }
        TrackNext(cipher, key, content, visited, data.value, position, seen, delivered, kept);
        visited := visited + [data.value];
        var plain := Opened(cipher, key, data.value);
        if plain.None? {
          continue;
        }
        var duplicate;
        duplicate, kept := Remember(plain.value, kept);
        if duplicate {
          continue;
        }
        delivered := delivered + [plain.value];
        recovered := recovered + 1;
      }
    }

    /**
     Reads the file back; `delivered` lists the calls of the callback. Unless ids had to be forgotten this is
     `Recover` on the frames of the file. The next push then goes behind the last frame exactly if none was over the
     limit.
     */
    method DrainAll() returns (recovered: nat, delivered: seq<Bytes>)
      requires Valid()
      modifies this`file, this`seen, this`totalRecovered
      ensures Valid()
      ensures recovered == |delivered| && totalRecovered == old(totalRecovered) + recovered
      ensures old(file).None? ==> file.None? && delivered == [] && seen == old(seen)
      ensures old(file).Some? ==> file == Some(OpenFile(old(file).value.content, Consumed(old(file).value.content)))
      ensures old(file).Some? ==> Recovers(cipher, key, Scan(old(file).value.content), old(seen), delivered, seen)
      ensures old(Intact()) && Writable(payloads) ==> (Intact() <==> Sized(payloads))
    {
      recovered, delivered := 0, [];
      if file.None? { return; }
      if Intact() && Writable(payloads) { RefusesExactlyWhenOversized(payloads); }
      var content, position := file.value.content, 0;
      recovered, delivered, seen, position := ReadBack(content);
      file := Some(OpenFile(content, position));
      totalRecovered := totalRecovered + recovered;
    }

    method ClearDedup()
      requires Valid()
      modifies this`seen
      ensures Valid() && seen == {}
    {
      seen := {};
    }
  }

  // ---------------------------------------------------------------------------------------------
  // Whole incidents
  // ---------------------------------------------------------------------------------------------

  /**
   Recovery of whatever was pushed since activation, the records with the ids `earlier` having been recovered
   before. It delivers the first record of each id, in push order, exactly when no two ids share their low half;
   the buffer goes on appending behind the frames it holds.
   */
  method RecoverSpill(b: EmergencyBuffer, ghost earlier: set<RecordId>) returns (recovered: nat, delivered: seq<Bytes>)
    requires b.Valid() && b.Intact() && b.Readable() && Sized(b.payloads)
    requires b.seen == Halves(earlier) && |Halves(earlier + Ids(b.records))| <= MAX_SEEN
    modifies b`file, b`seen, b`totalRecovered
    ensures b.Valid() && b.Intact() && b.seen == Halves(earlier + Ids(b.records))
    ensures delivered == AllBytes(Firsts(b.records, earlier)) <==> NoSharedHalf(b.records, earlier)
    ensures recovered == |delivered| <= |Firsts(b.records, earlier)|
    ensures delivered == AllBytes(FirstHalves(b.records, Halves(earlier)))
  {
    ScanComplete(b.payloads);
    RecoverFirsts(b.cipher, b.key, b.payloads, b.records, earlier);
    recovered, delivered := b.DrainAll();
  }
}
