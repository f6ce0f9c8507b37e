/**
 Length-prefixed frames: the writer of `record` (cli/src/commands/record.rs:176-180), its two replay
 readers (349-433, 466-493) and the reader of `verify-log` (cli/src/commands/verify.rs:136-182).
 */
module Framing {
  import opened LittleEndian
  import opened Wrappers

  /** core/src/sif/codec.rs:35 */
  const MAX_FRAME_SIZE: nat := 16 * 1024 * 1024

  /** The length prefix; the cast to `u32` drops higher bits. */
  function Le32(n: nat): (b: seq<Byte>)
    ensures |b| == 4
  {
    ToBytes(n, 4)
  }

  lemma Le32RoundTrip(n: nat)
    requires n < 0x1_0000_0000
    ensures FromBytes(Le32(n)) == n
  {
    Pow256Values();
    BytesRoundTrip(n, 4);
  }

  function Framed(payloads: seq<seq<Byte>>): seq<Byte> {
    if payloads == [] then [] else Le32(|payloads[0]|) + payloads[0] + Framed(payloads[1..])
  }

  lemma {:induction false} FramedAppend(a: seq<seq<Byte>>, b: seq<seq<Byte>>)
    ensures Framed(a + b) == Framed(a) + Framed(b)
  {
    if a == [] {
      assert a + b == b;
    } else {
      assert (a + b)[0] == a[0] && (a + b)[1..] == a[1..] + b;
      FramedAppend(a[1..], b);
    }
  }

  /** Appends each payload behind its length; `totalBytes` counts what was written. */
  method WriteFrames(payloads: seq<seq<Byte>>) returns (data: seq<Byte>, totalBytes: nat)
    ensures data == Framed(payloads) && totalBytes == |data|
  {
    data, totalBytes := [], 0;
    var none: seq<seq<Byte>> := [];
    for i := 0 to |payloads|
      invariant data == Framed(payloads[..i]) && totalBytes == |data|
    {
      var frame := payloads[i];
      assert payloads[..i + 1] == payloads[..i] + [frame];
      FramedAppend(payloads[..i], [frame]);
      assert [frame][1..] == none;
      assert Framed([frame]) == Le32(|frame|) + frame;
      data := data + Le32(|frame|);
      data := data + frame;
      totalBytes := totalBytes + 4 + |frame|;
    }
    assert payloads[..|payloads|] == payloads;
  }

  /** How a scan ends: fewer than four bytes left, an incomplete payload, or a length over the limit. */
  datatype Stop = End | Truncated | Oversize

  /** The payload ranges a scan visits, in order, and the bytes in them. */
  datatype Scan = Scan(slices: seq<(nat, nat)>, payloads: seq<seq<Byte>>, stop: Stop)

  function ScanFrom(data: seq<Byte>, offset: nat): (r: Scan)
    requires offset <= |data|
    decreases |data| - offset
  {
    if offset + 4 > |data| then Scan([], [], End)
    else
      var length := FromBytes(data[offset..offset + 4]);
      if length == 0 then ScanFrom(data, offset + 4)
      else if length > MAX_FRAME_SIZE then Scan([], [], Oversize)
      else if offset + 4 + length > |data| then Scan([], [], Truncated)
      else
        var start, end := offset + 4, offset + 4 + length;
        var rest := ScanFrom(data, end);
        Scan([(start, end)] + rest.slices, [data[start..end]] + rest.payloads, rest.stop)
  }

  ghost predicate SliceInRange(data: seq<Byte>, scan: Scan, from: nat, k: nat)
    requires k < |scan.slices| == |scan.payloads|
  {
    && from + 4 <= scan.slices[k].0 < scan.slices[k].1 <= |data|
    && scan.slices[k].1 - scan.slices[k].0 <= 16_777_216
    && scan.payloads[k] == data[scan.slices[k].0..scan.slices[k].1]
  }

  ghost predicate InRange(data: seq<Byte>, scan: Scan, from: nat) {
    && |scan.payloads| == |scan.slices|
    && (forall k: nat :: k < |scan.slices| ==> SliceInRange(data, scan, from, k))
    && (forall j, k :: 0 <= j < k < |scan.slices| ==> scan.slices[j].1 + 4 <= scan.slices[k].0)
  }

  /** Every visited range is inside the data and starts behind the end of the one before. */
  lemma {:induction false} SlicesInRange(data: seq<Byte>, offset: nat)
    requires offset <= |data|
    ensures InRange(data, ScanFrom(data, offset), offset)
    decreases |data| - offset
  {
    if offset + 4 <= |data| {
      var length := FromBytes(data[offset..offset + 4]);
      if length == 0 {
        SlicesInRange(data, offset + 4);
        InRangeEarlier(data, ScanFrom(data, offset + 4), offset + 4, offset);
      } else if length <= MAX_FRAME_SIZE && offset + 4 + length <= |data| {
        SlicesInRange(data, offset + 4 + length);
        PrependInRange(data, offset, length, ScanFrom(data, offset + 4 + length));
      }
    }
  }

  lemma InRangeEarlier(data: seq<Byte>, scan: Scan, from: nat, earlier: nat)
    requires InRange(data, scan, from) && earlier <= from
    ensures InRange(data, scan, earlier)
  {
    forall k: nat | k < |scan.slices| ensures SliceInRange(data, scan, earlier, k) {
      assert SliceInRange(data, scan, from, k);
    }
  }

  lemma PrependInRange(data: seq<Byte>, from: nat, length: nat, rest: Scan)
    requires 0 < length <= MAX_FRAME_SIZE && from + 4 + length <= |data| && InRange(data, rest, from + 4 + length)
    ensures var start, end := from + 4, from + 4 + length;
            InRange(data, Scan([(start, end)] + rest.slices, [data[start..end]] + rest.payloads, rest.stop), from)
  {
    var start, end := from + 4, from + 4 + length;
    var scan := Scan([(start, end)] + rest.slices, [data[start..end]] + rest.payloads, rest.stop);
    forall k: nat | k < |scan.slices| ensures SliceInRange(data, scan, from, k) {
      if k > 0 { assert SliceInRange(data, rest, end, k - 1); }
    }
    forall j, k | 0 <= j < k < |scan.slices| ensures scan.slices[j].1 + 4 <= scan.slices[k].0 {
      assert SliceInRange(data, rest, end, k - 1);
      assert j > 0 ==> rest.slices[j - 1].1 + 4 <= rest.slices[k - 1].0;
    }
  }

  ghost predicate Writable(payloads: seq<seq<Byte>>) {
    forall k :: 0 <= k < |payloads| ==> 1 <= |payloads[k]| <= MAX_FRAME_SIZE
  }

  /** The number of leading frames that fit completely into the first `k` bytes. */
  function Complete(payloads: seq<seq<Byte>>, k: nat): (m: nat)
    ensures m <= |payloads|
  {
    if payloads == [] || k < 4 + |payloads[0]| then 0 else 1 + Complete(payloads[1..], k - 4 - |payloads[0]|)
  }

  /** A scan from `offset` sees these payloads and no oversized length. */
  ghost predicate Sees(data: seq<Byte>, offset: nat, payloads: seq<seq<Byte>>)
    requires offset <= |data|
  {
    ScanFrom(data, offset).payloads == payloads && !ScanFrom(data, offset).stop.Oversize?
  }

  /** Scanning behind a prefix sees the complete frames of a truncated stream. */
  lemma {:induction false} ScanTruncated(before: seq<Byte>, payloads: seq<seq<Byte>>, k: nat)
    requires Writable(payloads) && k <= |Framed(payloads)|
    ensures Sees(before + Framed(payloads)[..k], |before|, payloads[..Complete(payloads, k)])
    decreases |payloads|
  {
    if payloads == [] || k < 4 + |payloads[0]| {
      ScanShort(before, payloads, k);
    } else {
      var p := payloads[0];
      FirstFrame(before, payloads, k);
      ScanTruncated(before + Le32(|p|) + p, payloads[1..], k - 4 - |p|);
      ScanOneMore(before, payloads, k);
    }
  }

  /** If the scan behind the first frame sees what is complete there, the scan sees that frame, too. */
  lemma ScanOneMore(before: seq<Byte>, payloads: seq<seq<Byte>>, k: nat)
    requires Writable(payloads) && payloads != [] && 4 + |payloads[0]| <= k <= |Framed(payloads)|
    requires var behind, rest := 4 + |payloads[0]|, payloads[1..];
             Sees(before + Framed(payloads)[..k], |before| + behind, rest[..Complete(rest, k - behind)])
    ensures Sees(before + Framed(payloads)[..k], |before|, payloads[..Complete(payloads, k)])
  {
    var data, p, m := before + Framed(payloads)[..k], payloads[0], Complete(payloads[1..], k - 4 - |payloads[0]|);
    FirstLength(before, payloads, k);
    FirstPayload(before, payloads, k);
    assert Complete(payloads, k) == 1 + m;
    PrependFrame(data, |before|, p, payloads[1..][..m]);
    OneMore(payloads, m);
  }

  lemma OneMore(payloads: seq<seq<Byte>>, m: nat)
    requires m < |payloads|
    ensures payloads[..1 + m] == [payloads[0]] + payloads[1..][..m]
  {
  }

  lemma FirstPayload(before: seq<Byte>, payloads: seq<seq<Byte>>, k: nat)
    requires payloads != [] && 4 + |payloads[0]| <= k <= |Framed(payloads)|
    ensures (before + Framed(payloads)[..k])[|before| + 4..|before| + 4 + |payloads[0]|] == payloads[0]
  {
    var p := payloads[0];
    FirstFrame(before, payloads, k);
    ThirdPart(before, Le32(|p|), p, Framed(payloads[1..])[..k - 4 - |p|]);
  }

  lemma ThirdPart(a: seq<Byte>, b: seq<Byte>, c: seq<Byte>, d: seq<Byte>)
    ensures (a + b + c + d)[|a| + |b|..|a| + |b| + |c|] == c
  {
  }

  lemma ScanShort(before: seq<Byte>, payloads: seq<seq<Byte>>, k: nat)
    requires Writable(payloads) && k <= |Framed(payloads)| && (payloads == [] || k < 4 + |payloads[0]|)
    ensures Sees(before + Framed(payloads)[..k], |before|, payloads[..Complete(payloads, k)])
  {
    if k >= 4 { FirstLength(before, payloads, k); }
  }

  /** One complete frame in front of a scanned rest. */
  lemma PrependFrame(data: seq<Byte>, offset: nat, p: seq<Byte>, rest: seq<seq<Byte>>)
    requires 1 <= |p| <= MAX_FRAME_SIZE && offset + 4 + |p| <= |data|
    requires FromBytes(data[offset..offset + 4]) == |p| && data[offset + 4..offset + 4 + |p|] == p
    requires Sees(data, offset + 4 + |p|, rest)
    ensures Sees(data, offset, [p] + rest)
  {
  }

  lemma FirstLength(before: seq<Byte>, payloads: seq<seq<Byte>>, k: nat)
    requires Writable(payloads) && 4 <= k <= |Framed(payloads)|
    ensures payloads != []
    ensures var data := before + Framed(payloads)[..k]; FromBytes(data[|before|..|before| + 4]) == |payloads[0]|
  {
    var data := before + Framed(payloads)[..k];
    assert data[|before|..|before| + 4] == Le32(|payloads[0]|);
    Le32RoundTrip(|payloads[0]|);
  }

  /** The bytes behind a frame are the stream of the remaining frames, truncated as much. */
  lemma FirstFrame(before: seq<Byte>, payloads: seq<seq<Byte>>, k: nat)
    requires payloads != [] && 4 + |payloads[0]| <= k <= |Framed(payloads)|
    ensures k - 4 - |payloads[0]| <= |Framed(payloads[1..])|
    ensures var data, p := before + Framed(payloads)[..k], payloads[0];
            data == before + Le32(|p|) + p + Framed(payloads[1..])[..k - 4 - |p|]
  {
    CutBehind(before, Le32(|payloads[0]|), payloads[0], Framed(payloads[1..]), k);
  }

  lemma CutBehind(a: seq<Byte>, b: seq<Byte>, c: seq<Byte>, d: seq<Byte>, k: nat)
    requires |b| + |c| <= k <= |b| + |c| + |d|
    ensures a + (b + c + d)[..k] == a + b + c + d[..k - |b| - |c|]
  {
  }

  /** A truncated file yields exactly the frames that are complete in it; an untouched one yields them all. */
  lemma FramingRoundTrip(payloads: seq<seq<Byte>>, k: nat)
    requires Writable(payloads) && k <= |Framed(payloads)|
    ensures ScanFrom(Framed(payloads)[..k], 0).payloads == payloads[..Complete(payloads, k)]
    ensures ScanFrom(Framed(payloads), 0).payloads == payloads
  {
    ScanTruncated([], payloads, k);
    assert [] + Framed(payloads)[..k] == Framed(payloads)[..k];
    ScanTruncated([], payloads, |Framed(payloads)|);
    assert [] + Framed(payloads)[..|Framed(payloads)|] == Framed(payloads);
    CompleteAll(payloads);
  }

  /** A frame is a little-endian 32-bit length and the payload; the next frame is behind it. */
  lemma FrameLayout(p: seq<Byte>, rest: seq<seq<Byte>>)
    requires |p| < 0x1_0000_0000
    ensures var b := Framed([p] + rest);
            && |b| == 4 + |p| + |Framed(rest)|
            && b[0] as nat + 0x100 * b[1] as nat + 0x1_0000 * b[2] as nat + 0x100_0000 * b[3] as nat == |p|
            && b[4..4 + |p|] == p && b[4 + |p|..] == Framed(rest)
  {
    var prefix := Le32(|p|);
    assert ([p] + rest)[1..] == rest;
    Le32RoundTrip(|p|);
    Weights(prefix);
  }

  /** What is scanned does not depend on where in the data it lies. */
  lemma {:induction false} ScanShifted(before: seq<Byte>, data: seq<Byte>, k: nat)
    requires k <= |data|
    ensures var here, there := ScanFrom(data, k), ScanFrom(before + data, |before| + k);
            there.payloads == here.payloads && there.stop == here.stop
    decreases |data| - k
  {
    var all, at := before + data, |before| + k;
    if k + 4 <= |data| {
      assert all[at..at + 4] == data[k..k + 4];
      var length := FromBytes(data[k..k + 4]);
      if length == 0 {
        ScanShifted(before, data, k + 4);
      } else if length <= MAX_FRAME_SIZE && k + 4 + length <= |data| {
        assert all[at + 4..at + 4 + length] == data[k + 4..k + 4 + length];
        ScanShifted(before, data, k + 4 + length);
      }
    }
  }

  /** A zero length is skipped, wherever it is met: four zero bytes in front change nothing. */
  lemma ZeroLengthIsSkipped(data: seq<Byte>)
    ensures ScanFrom([0, 0, 0, 0] + data, 0).payloads == ScanFrom(data, 0).payloads
    ensures ScanFrom([0, 0, 0, 0] + data, 0).stop == ScanFrom(data, 0).stop
  {
    var zeros: seq<Byte> := [0, 0, 0, 0];
    assert (zeros + data)[0..4] == zeros;
    Weights(zeros);
    ScanShifted(zeros, data, 0);
  }

  lemma {:induction false} CompleteAll(payloads: seq<seq<Byte>>)
    ensures Complete(payloads, |Framed(payloads)|) == |payloads| && payloads[..|payloads|] == payloads
  {
    if payloads != [] { CompleteAll(payloads[1..]); }
  }

  // ---------------------------------------------------------------------------------------------
  // The readers
  // ---------------------------------------------------------------------------------------------

  /** The payloads a decoder accepts, in order. */
  function Decoded<R>(payloads: seq<seq<Byte>>, decode: seq<Byte> -> Option<R>): seq<R> {
    if payloads == [] then []
    else
      AndNext(Decoded(payloads[..|payloads| - 1], decode), decode(payloads[|payloads| - 1]))
  }

  /** The records with the next one, if there is one. */
  function AndNext<R>(records: seq<R>, next: Option<R>): seq<R> {
    if next.Some? then records + [next.value] else records
  }

  /** Having visited these ranges and payloads, the scan of the data goes on at `offset`. */
  ghost predicate Reached(data: seq<Byte>, slices: seq<(nat, nat)>, payloads: seq<seq<Byte>>, offset: nat) {
    && offset <= |data|
    && var rest := ScanFrom(data, offset);
       ScanFrom(data, 0) == Scan(slices + rest.slices, payloads + rest.payloads, rest.stop)
  }

  lemma SkipEmpty(data: seq<Byte>, slices: seq<(nat, nat)>, payloads: seq<seq<Byte>>, offset: nat)
    requires Reached(data, slices, payloads, offset) && offset + 4 <= |data| && FromBytes(data[offset..offset + 4]) == 0
    ensures Reached(data, slices, payloads, offset + 4)
  {
  }

  lemma VisitFrame(data: seq<Byte>, slices: seq<(nat, nat)>, payloads: seq<seq<Byte>>, offset: nat, length: nat)
    requires Reached(data, slices, payloads, offset) && offset + 4 + length <= |data|
    requires length == FromBytes(data[offset..offset + 4]) && 0 < length <= MAX_FRAME_SIZE
    ensures var start, end := offset + 4, offset + 4 + length;
            Reached(data, slices + [(start, end)], payloads + [data[start..end]], end)
  {
    var end := offset + 4 + length;
    var rest := ScanFrom(data, end);
    assert slices + ([(offset + 4, end)] + rest.slices) == slices + [(offset + 4, end)] + rest.slices;
    assert payloads + ([data[offset + 4..end]] + rest.payloads) == payloads + [data[offset + 4..end]] + rest.payloads;
  }

  /** Why a scan stops at this offset, if it does. */
  function StopAt(data: seq<Byte>, offset: nat): Option<Stop>
    requires offset <= |data|
  {
    if offset + 4 > |data| then Some(End)
    else
      var length := FromBytes(data[offset..offset + 4]);
      if length > MAX_FRAME_SIZE then Some(Oversize)
      else if length > 0 && offset + 4 + length > |data| then Some(Truncated)
      else None
  }

  /** Where the scan stops nothing is left to visit. */
  lemma ScanStops(data: seq<Byte>, slices: seq<(nat, nat)>, payloads: seq<seq<Byte>>, offset: nat)
    requires Reached(data, slices, payloads, offset) && StopAt(data, offset).Some?
    ensures ScanFrom(data, 0) == Scan(slices, payloads, StopAt(data, offset).value)
  {
    assert slices + [] == slices && payloads + [] == payloads;
  }

  /** The length announced here is over 16 MiB. */
  ghost predicate OversizedAt(data: seq<Byte>, offset: nat) {
    offset + 4 <= |data| && FromBytes(data[offset..offset + 4]) > 16_777_216
  }

  lemma StopsHere(data: seq<Byte>, offset: nat, length: nat)
    requires offset + 4 <= |data| && length == FromBytes(data[offset..offset + 4])
    requires length > MAX_FRAME_SIZE || (length > 0 && offset + 4 + length > |data|)
    ensures StopAt(data, offset) == Some(if length > MAX_FRAME_SIZE then Oversize else Truncated)
    ensures length > MAX_FRAME_SIZE ==> OversizedAt(data, offset)
  {
  }

  lemma DecodedAppend<R>(payloads: seq<seq<Byte>>, p: seq<Byte>, decode: seq<Byte> -> Option<R>)
    ensures Decoded(payloads + [p], decode) == AndNext(Decoded(payloads, decode), decode(p))
  {
    assert (payloads + [p])[..|payloads|] == payloads;
  }

  /** Having visited these ranges and payloads and decoded these records, the reader is at `offset`. */
  ghost predicate Read<R>(
      data: seq<Byte>, decode: seq<Byte> -> Option<R>, slices: seq<(nat, nat)>, payloads: seq<seq<Byte>>,
      records: seq<R>, offset: nat)
  {
    Reached(data, slices, payloads, offset) && records == Decoded(payloads, decode)
  }

  /** The next payload is visited, and decoded or skipped. */
  lemma ReadNext<R>(
      data: seq<Byte>, decode: seq<Byte> -> Option<R>, slices: seq<(nat, nat)>, payloads: seq<seq<Byte>>,
      records: seq<R>, offset: nat, length: nat)
    requires Read(data, decode, slices, payloads, records, offset) && offset + 4 + length <= |data|
    requires length == FromBytes(data[offset..offset + 4]) && 0 < length <= MAX_FRAME_SIZE
    ensures var start, end := offset + 4, offset + 4 + length;
            Read(data, decode, slices + [(start, end)], payloads + [data[start..end]],
                 AndNext(records, decode(data[start..end])), end)
  {
    VisitFrame(data, slices, payloads, offset, length);
    DecodedAppend(payloads, data[offset + 4..offset + 4 + length], decode);
  }

  /** The reader of `verify-log`: an oversized frame is an error, an undecodable one is skipped. */
  method ReadSifFile<R>(data: seq<Byte>, decode: seq<Byte> -> Option<R>) returns (r: Result<seq<R>, nat>)
    ensures r.Err? == ScanFrom(data, 0).stop.Oversize?
    ensures r.Err? ==> OversizedAt(data, r.error)
    ensures r.Ok? ==> r.value == Decoded(ScanFrom(data, 0).payloads, decode)
  {
    var offset := 0;
    var records: seq<R> := [];
    ghost var slices: seq<(nat, nat)>, payloads: seq<seq<Byte>> := [], [];
    while offset + 4 <= |data|
      invariant Read(data, decode, slices, payloads, records, offset)
      decreases |data| - offset
    {
      var length := FromBytes(data[offset..offset + 4]);
      if length == 0 {
        SkipEmpty(data, slices, payloads, offset);
        offset := offset + 4;
        continue;
      }
      if length > MAX_FRAME_SIZE {
        StopsHere(data, offset, length);
        ScanStops(data, slices, payloads, offset);
        return Err(offset);
      }
      var start, end := offset + 4, offset + 4 + length;
      if end > |data| {
        StopsHere(data, offset, length);
        break;
      }
      ReadNext(data, decode, slices, payloads, records, offset, length);
      slices, payloads := slices + [(start, end)], payloads + [data[start..end]];
      var record := decode(data[start..end]);
      if record.Some? {
        records := records + [record.value];
      }
      offset := end;
    }
    ScanStops(data, slices, payloads, offset);
    return Ok(records);
  }

  /** The text replay: prints each decodable frame; `shown` lists them. */
  method ReplayText<R>(data: seq<Byte>, decode: seq<Byte> -> Option<R>)
    returns (count: nat, shown: seq<R>, slices: seq<(nat, nat)>)
    ensures slices == ScanFrom(data, 0).slices
    ensures shown == Decoded(ScanFrom(data, 0).payloads, decode) && count == |shown|
  {
    var offset := 0;
    count, shown, slices := 0, [], [];
    ghost var payloads: seq<seq<Byte>> := [];
    while offset + 4 <= |data|
      invariant Read(data, decode, slices, payloads, shown, offset) && count == |shown|
      decreases |data| - offset
    {
      var length := FromBytes(data[offset..offset + 4]);
      if length == 0 {
        SkipEmpty(data, slices, payloads, offset);
        offset := offset + 4;
        continue;
      }
      if length > MAX_FRAME_SIZE {
        StopsHere(data, offset, length);
        break;
      }
      var start, end := offset + 4, offset + 4 + length;
      if end > |data| {
        StopsHere(data, offset, length);
        break;
      }
      ReadNext(data, decode, slices, payloads, shown, offset, length);
      slices, payloads := slices + [(start, end)], payloads + [data[start..end]];
      var record := decode(data[start..end]);
      if record.None? {
        offset := end;
        continue;
      }
      shown := shown + [record.value];
      count := count + 1;
      offset := end;
    }
    ScanStops(data, slices, payloads, offset);
  }

  /** The JSON replay: counts every complete frame, decodable or not, over the same ranges. */
  method ReplayJson(data: seq<Byte>) returns (count: nat, slices: seq<(nat, nat)>)
    ensures slices == ScanFrom(data, 0).slices && count == |slices|
  {
    var offset := 0;
    count, slices := 0, [];
    ghost var payloads: seq<seq<Byte>> := [];
    while offset + 4 <= |data|
      invariant Reached(data, slices, payloads, offset) && count == |slices|
      decreases |data| - offset
    {
      var length := FromBytes(data[offset..offset + 4]);
      if length == 0 {
        SkipEmpty(data, slices, payloads, offset);
        offset := offset + 4;
        continue;
      }
      if length > MAX_FRAME_SIZE {
        StopsHere(data, offset, length);
        break;
      }
      var start, end := offset + 4, offset + 4 + length;
      if end > |data| {
        StopsHere(data, offset, length);
        break;
      }
      VisitFrame(data, slices, payloads, offset, length);
      slices, payloads := slices + [(start, end)], payloads + [data[start..end]];
      count := count + 1;
      offset := end;
    }
    ScanStops(data, slices, payloads, offset);
  }
}
