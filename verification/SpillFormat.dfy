/**
 What the emergency buffer writes to its spill file and how it reads it back
 (core/src/buffer/emergency_buffer.rs:288-460, 480-539).

 The cipher is abstract: `Sound` says that decryption undoes encryption and that the tag is 16 bytes long.
 */
module SpillFormat {
  import opened LittleEndian
  import opened Wrappers

  type Bytes = seq<Byte>
  type U16 = n: nat | n < 0x1_0000
  type U32 = n: nat | n < 0x1_0000_0000
  type U64 = n: nat | n < 0x1_0000_0000_0000_0000
  type Hash = h: Bytes | |h| == 32 witness ToBytes(0, 32)
  type Nonce = n: Bytes | |n| == NONCE_LEN witness ToBytes(0, NONCE_LEN)
  type Key(==, 0, !new)

  const NONCE_LEN: nat := 12
  const TAG_LEN: nat := 16
  const ENCRYPTED_FLAG: Byte := 0xFF
  const AUDIT: Byte := 6
  const MAGIC: Bytes := [0x44, 0x4C, 0x4F, 0x47]

  /** Longer frames end the recovery scan. */
  const MAX_FRAME: nat := 1024 * 1024

  datatype Record = Record(
    idHi: U64, idLo: U64, lsn: U64, timestamp: U64, level: Byte, flags: U16,
    message: Bytes, threadId: U32, contentHash: Hash, auditTags: Bytes)

  // ---------------------------------------------------------------------------------------------
  // One record
  // ---------------------------------------------------------------------------------------------

  /** The length field of a long message is capped, the message itself is written in full. */
  function RecordBytes(r: Record): Bytes {
    MAGIC + ToBytes(r.idHi, 8) + ToBytes(r.idLo, 8) + Rest(r)
  }

  function Rest(r: Record): Bytes {
    var messageLen := if |r.message| < 0xFFFF then |r.message| else 0xFFFF;
    ToBytes(r.lsn, 8) + ToBytes(r.timestamp, 8) + [r.level] + ToBytes(r.flags, 2)
    + ToBytes(messageLen, 2) + r.message
    + ToBytes(r.threadId, 4)
    + ToBytes(32, 2) + r.contentHash
    + ToBytes(|r.auditTags|, 2) + r.auditTags
  }

  function ExtractRecordId(data: Bytes): Option<nat> {
    if |data| < 20 then None
    else if data[..4] != MAGIC then None
    else Some(FromBytes(data[12..20]))
  }

  // ---------------------------------------------------------------------------------------------
  // Encryption
  // ---------------------------------------------------------------------------------------------

  datatype Cipher = Cipher(
    encrypt: (Key, Nonce, Bytes) -> Option<Bytes>,
    decrypt: (Key, Nonce, Bytes) -> Option<Bytes>)

  ghost predicate Sound(c: Cipher) {
    forall k, n, p :: c.encrypt(k, n, p).Some? ==>
      |c.encrypt(k, n, p).value| == |p| + TAG_LEN && c.decrypt(k, n, c.encrypt(k, n, p).value) == Some(p)
  }

  /** The frame payload of a record: sealed under `key` if there is one to use, `None` if sealing fails. */
  function Payload(c: Cipher, key: Option<Key>, nonce: Nonce, r: Record): Option<Bytes> {
    if key.None? then Some(RecordBytes(r))
    else
      var sealed := c.encrypt(key.value, nonce, RecordBytes(r));
      if sealed.None? then None else Some([ENCRYPTED_FLAG] + nonce + sealed.value)
  }

  /** The plaintext of a payload; `None` if it is skipped. */
  function Opened(c: Cipher, key: Option<Key>, payload: Bytes): Option<Bytes> {
    if payload != [] && payload[0] == ENCRYPTED_FLAG then
      if |payload| < 1 + NONCE_LEN + TAG_LEN then None
      else if key.None? then None
      else c.decrypt(key.value, payload[1..1 + NONCE_LEN], payload[1 + NONCE_LEN..])
    else Some(payload)
  }

  // ---------------------------------------------------------------------------------------------
  // Frames
  // ---------------------------------------------------------------------------------------------

  function Frame(payload: Bytes): (f: Bytes)
    ensures |f| == 8 + |payload|
  {
    ToBytes(|payload|, 8) + payload
  }

  function Framed(payloads: seq<Bytes>): Bytes {
    if payloads == [] then [] else Frame(payloads[0]) + Framed(payloads[1..])
  }

  /** The length the next eight bytes announce. */
  function Announced(content: Bytes): nat
    requires |content| >= 8
  {
    FromBytes(content[..8])
  }

  predicate Stops(content: Bytes) {
    |content| < 8 || Announced(content) == 0 || Announced(content) > MAX_FRAME || |content| < 8 + Announced(content)
  }

  /** The payloads the recovery scan reads from the front of a file. */
  function Scan(content: Bytes): seq<Bytes>
    decreases |content|
  {
    if Stops(content) then []
    else
      var end := 8 + Announced(content);
      [content[8..end]] + Scan(content[end..])
  }

  /** How far the file position is when the scan ends. */
  function Consumed(content: Bytes): (n: nat)
    ensures n <= |content|
    decreases |content|
  {
    if |content| < 8 then |content|
    else if Announced(content) == 0 || Announced(content) > MAX_FRAME then 8
    else if |content| < 8 + Announced(content) then |content|
    else 8 + Announced(content) + Consumed(content[8 + Announced(content)..])
  }

  /** The number of leading frames that are complete in `k` bytes, up to the first one the scan refuses. */
  function Recoverable(payloads: seq<Bytes>, k: nat): (m: nat)
    ensures m <= |payloads|
  {
    if payloads == [] || k < 8 + |payloads[0]| || |payloads[0]| == 0 || |payloads[0]| > MAX_FRAME then 0
    else 1 + Recoverable(payloads[1..], k - 8 - |payloads[0]|)
  }

  ghost predicate Writable(payloads: seq<Bytes>) {
    forall i :: 0 <= i < |payloads| ==> |payloads[i]| < 0x1_0000_0000_0000_0000
  }

  ghost predicate Sized(payloads: seq<Bytes>) {
    forall i :: 0 <= i < |payloads| ==> 1 <= |payloads[i]| <= MAX_FRAME
  }

  // ---------------------------------------------------------------------------------------------
  // Recovery
  // ---------------------------------------------------------------------------------------------

  /** What a recovery has handed to its callback, and the ids it remembers. */
  datatype Recovery = Recovery(delivered: seq<Bytes>, seen: set<nat>)

  function Take(before: Recovery, plain: Option<Bytes>): Recovery {
    if plain.None? then before
    else
      var id := ExtractRecordId(plain.value);
      if id.None? then before.(delivered := before.delivered + [plain.value])
      else if id.value in before.seen then before
      else Recovery(before.delivered + [plain.value], before.seen + {id.value})
  }

  function Recover(c: Cipher, key: Option<Key>, payloads: seq<Bytes>, seen: set<nat>): Recovery {
    if payloads == [] then Recovery([], seen)
    else
      var last := |payloads| - 1;
      Take(Recover(c, key, payloads[..last], seen), Opened(c, key, payloads[last]))
  }

  // In terms of the records spilled: the dedup key is the low half of the id

  function LowHalves(records: seq<Record>): set<nat> {
    set r | r in records :: r.idLo
  }

  /** Record `i` is the first with the low half of its id, and that half is not among those seen before. */
  predicate FirstHalf(records: seq<Record>, i: nat, seen: set<nat>)
    requires i < |records|
  {
    records[i].idLo !in seen && forall j: nat :: j < i ==> records[j].idLo != records[i].idLo
  }

  function FirstHalves(records: seq<Record>, seen: set<nat>): seq<Record> {
    if records == [] then []
    else
      var last := |records| - 1;
      FirstHalves(records[..last], seen) + (if FirstHalf(records, last, seen) then [records[last]] else [])
  }

  function AllBytes(records: seq<Record>): seq<Bytes> {
    if records == [] then []
    else AllBytes(records[..|records| - 1]) + [RecordBytes(records[|records| - 1])]
  }

  /** Each payload opens to the bytes of the record it was made from. */
  ghost predicate Opens(c: Cipher, key: Option<Key>, payloads: seq<Bytes>, records: seq<Record>) {
    && |payloads| == |records|
    && forall i :: 0 <= i < |payloads| ==> Opened(c, key, payloads[i]) == Some(RecordBytes(records[i]))
  }

  ghost predicate NoIds(delivered: seq<Bytes>) {
    forall i :: 0 <= i < |delivered| ==> ExtractRecordId(delivered[i]).None?
  }

  // ---------------------------------------------------------------------------------------------
  // Whole record ids
  // ---------------------------------------------------------------------------------------------

  datatype RecordId = RecordId(hi: U64, lo: U64)

  function Id(r: Record): RecordId {
    RecordId(r.idHi, r.idLo)
  }

  function Ids(records: seq<Record>): set<RecordId> {
    set r | r in records :: Id(r)
  }

  function Halves(ids: set<RecordId>): set<nat> {
    set id | id in ids :: id.lo
  }

  /** Record `i` is the first with its id, and was not recovered earlier. */
  predicate First(records: seq<Record>, i: nat, earlier: set<RecordId>)
    requires i < |records|
  {
    Id(records[i]) !in earlier && forall j: nat :: j < i ==> Id(records[j]) != Id(records[i])
  }

  /** The first record of each id that was not recovered earlier, in push order. */
  function Firsts(records: seq<Record>, earlier: set<RecordId>): seq<Record> {
    if records == [] then []
    else
      var last := |records| - 1;
      Firsts(records[..last], earlier) + (if First(records, last, earlier) then [records[last]] else [])
  }

  // ---------------------------------------------------------------------------------------------
  // Ids that share their low half
  // ---------------------------------------------------------------------------------------------

  /** Record `i` shares its low half with no other id, neither one recovered earlier nor one in front of it. */
  predicate Alone(records: seq<Record>, i: nat, earlier: set<RecordId>)
    requires i < |records|
  {
    Id(records[i]) !in earlier ==>
      && records[i].idLo !in Halves(earlier)
      && forall j: nat :: j < i && records[j].idLo == records[i].idLo ==> records[j].idHi == records[i].idHi
  }

  predicate NoSharedHalf(records: seq<Record>, earlier: set<RecordId>) {
    forall i: nat :: i < |records| ==> Alone(records, i, earlier)
  }

  // ---------------------------------------------------------------------------------------------
  // Generated ids
  // ---------------------------------------------------------------------------------------------

  /** The low 22 bits of the sequence number enter the id; the counter is never reset. */
  const SEQUENCES: nat := 0x40_0000

  /**
   The id a time source with this node fingerprint makes of a millisecond time and a sequence number; a number
   that wraps to zero is skipped. The shift keeps the low 32 bits of the fingerprint.
   */
  function GeneratedId(fingerprint: U64, timeMs: U64, sequence: nat): Option<RecordId> {
    if sequence % SEQUENCES == 0 && sequence > 0 then None
    else Some(RecordId(timeMs, fingerprint % 0x1_0000_0000 * 0x1_0000_0000 + sequence % SEQUENCES))
  }

  /** The records carry ids of one source, each made of its own time and sequence number. */
  ghost predicate Generated(records: seq<Record>, fingerprint: U64, times: seq<U64>, sequences: seq<nat>) {
    && |records| == |times| == |sequences|
    && (forall i :: 0 <= i < |records| ==> GeneratedId(fingerprint, times[i], sequences[i]) == Some(Id(records[i])))
    && (forall i, j :: 0 <= i < j < |records| && sequences[i] == sequences[j] ==> times[i] == times[j])
  }
}
