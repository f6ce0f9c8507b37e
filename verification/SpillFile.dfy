/**
 The open spill file: where reads and writes leave its position, and what a frame that recovery refuses hides
 (core/src/buffer/emergency_buffer.rs:339-345, 380-400).
 */
module SpillFile {
  import opened LittleEndian
  import opened SpillFormat
  import opened SpillTheorems
  import opened Wrappers

  /** An open file: what it holds and where the next read or write goes. */
  datatype OpenFile = OpenFile(content: Bytes, position: nat)

  function WriteAll(f: OpenFile, data: Bytes): (g: OpenFile)
    requires f.position <= |f.content|
    ensures g.position == f.position + |data| <= |g.content|
  {
    var end := f.position + |data|;
    OpenFile(f.content[..f.position] + data + (if end < |f.content| then f.content[end..] else []), end)
  }

  /** The file holds exactly these frames, and the next write goes behind the last. */
  ghost predicate Holds(file: Option<OpenFile>, payloads: seq<Bytes>) {
    file.Some? && file.value == OpenFile(Framed(payloads), |Framed(payloads)|)
  }

  /** The file behind two writes, one for the length prefix and one for the payload. */
  function WriteFrame(f: OpenFile, payload: Bytes): OpenFile
    requires f.position <= |f.content|
  {
    WriteAll(WriteAll(f, ToBytes(|payload|, 8)), payload)
  }

  lemma WriteHolds(file: Option<OpenFile>, payloads: seq<Bytes>, payload: Bytes)
    requires Holds(file, payloads)
    ensures Holds(Some(WriteFrame(file.value, payload)), payloads + [payload])
  {
    FramedAppend(payloads, payload);
    var content := Framed(payloads);
    assert content[..|content|] == content;
    assert WriteAll(file.value, ToBytes(|payload|, 8)).content == content + ToBytes(|payload|, 8);
    assert WriteFrame(file.value, payload).content == content + ToBytes(|payload|, 8) + payload;
  }

  // ---------------------------------------------------------------------------------------------
  // Refused frames
  // ---------------------------------------------------------------------------------------------

  /** The scan ends at a length it refuses, and so eight bytes into a frame. */
  predicate Refuses(content: Bytes)
    decreases |content|
  {
    if |content| < 8 then false
    else if Announced(content) == 0 || Announced(content) > MAX_FRAME then true
    else |content| >= 8 + Announced(content) && Refuses(content[8 + Announced(content)..])
  }

  ghost predicate NoneEmpty(payloads: seq<Bytes>) {
    forall i :: 0 <= i < |payloads| ==> payloads[i] != []
  }

  lemma FirstFrame(p: Bytes, rest: Bytes)
    requires |p| < 0x1_0000_0000_0000_0000
    ensures Announced(Frame(p) + rest) == |p| && (Frame(p) + rest)[8 + |p|..] == rest
  {
    FrontFrame(p, rest, 8 + |p| + |rest|);
    assert (Frame(p) + rest)[..8 + |p| + |rest|] == Frame(p) + rest;
  }

  /** The scan of written frames refuses one exactly if some frame is over the limit; else it ends at the end. */
  lemma {:induction false} RefusesExactlyWhenOversized(payloads: seq<Bytes>)
    requires Writable(payloads) && NoneEmpty(payloads)
    ensures Refuses(Framed(payloads)) <==> !Sized(payloads)
    ensures Consumed(Framed(payloads)) == |Framed(payloads)| <==> Sized(payloads)
    decreases |payloads|
  {
    if payloads != [] {
      var p, rest := payloads[0], payloads[1..];
      FirstFrame(p, Framed(rest));
      SizedHead(payloads);
      RefusesExactlyWhenOversized(rest);
    }
  }

  /**
   The scan of these frames gives those in front of one over the limit and leaves the position eight bytes into it.
   */
  lemma {:induction false} ScanStopsInside(front: seq<Bytes>, p: Bytes, behind: seq<Bytes>)
    requires Sized(front) && MAX_FRAME < |p| < 0x1_0000_0000_0000_0000
    ensures Scan(Framed(front + [p] + behind)) == front
    ensures Consumed(Framed(front + [p] + behind)) == |Framed(front)| + 8
    decreases |front|
  {
    var all := front + [p] + behind;
    if front == [] {
      FirstFrame(p, Framed(behind));
      assert all[0] == p && all[1..] == behind;
    } else {
      SizedHead(front);
      ScanStopsInside(front[1..], p, behind);
      FirstFrame(front[0], Framed(all[1..]));
      assert all[1..] == front[1..] + [p] + behind;
      FrontPayload(front[0], Framed(all[1..]));
      assert front == [front[0]] + front[1..];
    }
  }

  lemma FrontPayload(p: Bytes, rest: Bytes)
    ensures (Frame(p) + rest)[8..8 + |p|] == p
  {
    assert (ToBytes(|p|, 8) + p + rest)[8..8 + |p|] == p;
  }

  /** What lies behind a refused length makes no difference to the scan. */
  lemma {:induction false} BehindRefusedLength(content: Bytes, other: Bytes)
    requires Refuses(content) && Consumed(content) <= |other|
    requires other[..Consumed(content)] == content[..Consumed(content)]
    ensures Refuses(other) && Scan(other) == Scan(content) && Consumed(other) == Consumed(content)
    decreases |content|
  {
    SameLength(content, other);
    if 0 < Announced(content) <= MAX_FRAME {
      var end := 8 + Announced(content);
      SameRest(content, other, Consumed(content), end);
      BehindRefusedLength(content[end..], other[end..]);
    }
  }

  lemma SameLength(content: Bytes, other: Bytes)
    requires 8 <= Consumed(content) <= |other| && other[..Consumed(content)] == content[..Consumed(content)]
    ensures |content| >= 8 && Announced(other) == Announced(content)
  {
    var k := Consumed(content);
    assert other[..8] == other[..k][..8] == content[..k][..8] == content[..8];
  }

  lemma SameRest(content: Bytes, other: Bytes, k: nat, end: nat)
    requires 8 <= end <= k <= |content| && k <= |other| && other[..k] == content[..k]
    ensures other[end..][..k - end] == content[end..][..k - end] && other[8..end] == content[8..end]
  {
    assert other[end..][..k - end] == other[..k][end..] == content[..k][end..] == content[end..][..k - end];
    assert other[8..end] == other[..k][8..end] == content[..k][8..end] == content[8..end];
  }

  lemma WriteKeepsFront(f: OpenFile, payload: Bytes)
    requires f.position <= |f.content|
    ensures f.position <= |WriteFrame(f, payload).content|
    ensures WriteFrame(f, payload).content[..f.position] == f.content[..f.position]
  {
    var g := WriteAll(f, ToBytes(|payload|, 8));
    assert g.content[..f.position] == f.content[..f.position];
    assert WriteFrame(f, payload).content[..f.position] == g.content[..g.position][..f.position];
  }

  /**
   A frame written where a scan has left the position is found by the next scan exactly if the scan was not stopped
   by a refused frame. Behind a refused one it overwrites what was there, and no later scan gets so far.
   */
  lemma WrittenBehindRefusalIsHidden(content: Bytes, payload: Bytes)
    requires Refuses(content)
    ensures var end := WriteFrame(OpenFile(content, Consumed(content)), payload);
            Refuses(end.content) && Scan(end.content) == Scan(content) && Consumed(end.content) == Consumed(content)
  {
    var f := OpenFile(content, Consumed(content));
    WriteKeepsFront(f, payload);
    BehindRefusedLength(content, WriteFrame(f, payload).content);
  }

  /** Of the bytes in the file a write replaces as many as it writes, from the position on. */
  lemma WriteReplaces(f: OpenFile, payload: Bytes)
    requires f.position <= |f.content|
    ensures var end := f.position + 8 + |payload|;
            WriteFrame(f, payload).content ==
              f.content[..f.position] + Frame(payload) + (if end < |f.content| then f.content[end..] else [])
  {
    var length := ToBytes(|payload|, 8);
    var g := WriteAll(f, length);
    assert g.content[..g.position] == f.content[..f.position] + length;
  }

  lemma NextFrameIsFound(payloads: seq<Bytes>, next: Bytes)
    requires Sized(payloads) && 1 <= |next| <= MAX_FRAME
    ensures var content := Framed(payloads);
            Scan(WriteFrame(OpenFile(content, |content|), next).content) == Scan(content) + [next]
  {
    var content := Framed(payloads);
    WriteHolds(Some(OpenFile(content, |content|)), payloads, next);
    ScanComplete(payloads);
    ScanComplete(payloads + [next]);
  }

  /**
   Spilling goes on behind a recovery exactly if no frame was refused: then the next frame is found behind the others,
   and otherwise neither it nor anything from the refused frame on.
   */
  lemma NextFrameIsFoundExactlyWhen(payloads: seq<Bytes>, next: Bytes)
    requires Writable(payloads) && NoneEmpty(payloads) && 1 <= |next| <= MAX_FRAME
    ensures var content := Framed(payloads);
            var found := Scan(WriteFrame(OpenFile(content, Consumed(content)), next).content);
            && (Sized(payloads) <==> found == Scan(content) + [next])
            && (!Sized(payloads) <==> found == Scan(content))
  {
    var content := Framed(payloads);
    RefusesExactlyWhenOversized(payloads);
    assert |Scan(content) + [next]| != |Scan(content)|;
    if Sized(payloads) {
      NextFrameIsFound(payloads, next);
    } else {
      WrittenBehindRefusalIsHidden(content, next);
    }
  }
}
