/** When `detect_input` gives each of its answers (core/src/codec/mod.rs:131-199). */
module DetectionTheorems {
  import opened Codec
  import opened Unicode
  import opened Wrappers

  /** For each pair of bytes, whether its high byte in this order is zero and its low byte is not. */
  function Narrow(b: Bytes, little: bool): seq<bool> {
    seq(|b| / 2, k requires 0 <= k < |b| / 2 =>
      if little then b[2 * k + 1] == 0 && b[2 * k] != 0 else b[2 * k] == 0 && b[2 * k + 1] != 0)
  }

  lemma NarrowFront(b: Bytes, little: bool)
    requires |b| % 2 == 0 && b != []
    ensures var first := if little then b[1] == 0 && b[0] != 0 else b[0] == 0 && b[1] != 0;
            Narrow(b, little) == [first] + Narrow(b[2..], little)
  {
    assert |b[2..]| / 2 == |b| / 2 - 1;
    forall k | 0 < k < |b| / 2 ensures Narrow(b, little)[k] == Narrow(b[2..], little)[k - 1] {
      assert b[2..][2 * (k - 1)] == b[2 * k] && b[2..][2 * (k - 1) + 1] == b[2 * k + 1];
    }
  }

  lemma {:induction false} PairsAreCounted(b: Bytes, little: bool)
    requires |b| % 2 == 0
    ensures NarrowPairs(b, little) == multiset(Narrow(b, little))[true]
  {
    if b != [] {
      PairsAreCounted(b[2..], little);
      NarrowFront(b, little);
    }
  }

  /** At least two whole units, half of them or more narrow, and valid UTF-16 in this byte order. */
  ghost predicate LooksLike16(b: Bytes, little: bool) {
    && |b| >= 4 && |b| % 2 == 0 && 2 * multiset(Narrow(b, little))[true] >= |b| / 2
    && DecodeUtf16(BytesToUnits(b, little)).Some?
  }

  /** The units of the bytes behind a mark make up a text. */
  predicate TextBehindMark(b: Bytes, little: bool)
    requires |b| >= 2
  {
    |b| % 2 == 0 && DecodeUtf16(BytesToUnits(b[2..], little)).Some?
  }

  predicate PageDecodes(p: Platform, b: Bytes, page: U32) {
    1 <= page <= 65_535 && p.decodePage(b, page).Ok?
  }

  /** The positions of the candidates that decode the bytes. */
  function Positions(p: Platform, b: Bytes, candidates: seq<U32>): seq<nat> {
    if candidates == [] then []
    else
      var last := |candidates| - 1;
      Positions(p, b, candidates[..last]) + (if PageDecodes(p, b, candidates[last]) then [last] else [])
  }

  /** The candidates at these increasing positions and no others decode the bytes. */
  ghost predicate AcceptedAt(p: Platform, b: Bytes, candidates: seq<U32>, positions: seq<nat>, pages: seq<U32>) {
    && |pages| == |positions| && (forall i, j :: 0 <= i < j < |positions| ==> positions[i] < positions[j])
    && (forall i :: 0 <= i < |positions| ==> positions[i] < |candidates| && pages[i] == candidates[positions[i]])
    && (forall k: nat :: k < |candidates| ==> (PageDecodes(p, b, candidates[k]) <==> k in positions))
  }

  lemma {:induction false} AcceptedExactly(p: Platform, b: Bytes, candidates: seq<U32>)
    ensures AcceptedAt(p, b, candidates, Positions(p, b, candidates), Accepted(p, b, candidates))
  {
    if candidates != [] {
      var last := |candidates| - 1;
      AcceptedExactly(p, b, candidates[..last]);
      forall k: nat | k < |candidates|
        ensures PageDecodes(p, b, candidates[k]) <==> k in Positions(p, b, candidates)
      {
        if k < last { assert candidates[..last][k] == candidates[k]; }
      }
    }
  }

  lemma LooksPlausible(b: Bytes, little: bool)
    ensures Plausible16(b, little) <==> LooksLike16(b, little)
  {
    if |b| % 2 == 0 { PairsAreCounted(b, little); }
  }

  predicate LittleMark(b: Bytes) {
    |b| >= 2 && b[0] == 0xFF && b[1] == 0xFE
  }

  predicate BigMark(b: Bytes) {
    |b| >= 2 && b[0] == 0xFE && b[1] == 0xFF
  }

  lemma MarkedCases(p: Platform, b: Bytes, candidates: seq<U32>)
    ensures HasBom(b, true) <==> LittleMark(b)
    ensures HasBom(b, false) <==> BigMark(b)
    ensures LittleMark(b) ==>
              Detect(p, b, candidates) == if TextBehindMark(b, true) then Ok(Utf16Le) else Err(InvalidBom)
    ensures BigMark(b) ==>
              Detect(p, b, candidates) == if TextBehindMark(b, false) then Ok(Utf16Be) else Err(InvalidBom)
  {
    if |b| >= 2 { assert b[..2] == [b[0], b[1]]; }
  }

  /** The answer of the code pages. */
  function FromPages(pages: seq<U32>): Result<TextEncoding, AutoDetectionError> {
    if |pages| == 0 then Err(Unknown) else if |pages| == 1 then Ok(CodePage(pages[0])) else Err(Ambiguous(pages))
  }

  lemma UnmarkedCases(p: Platform, b: Bytes, candidates: seq<U32>)
    requires !HasBom(b, true) && !HasBom(b, false)
    ensures Detect(p, b, candidates) == if DecodeUtf8(b).Some? then Ok(Utf8)
                                        else if Plausible16(b, true) && Plausible16(b, false) then Err(Unknown)
                                        else if Plausible16(b, true) then Ok(Utf16Le)
                                        else if Plausible16(b, false) then Ok(Utf16Be)
                                        else FromPages(Accepted(p, b, candidates))
  {
  }

  /** The answer from the bytes alone. */
  lemma DetectedFromBytes(p: Platform, b: Bytes, candidates: seq<U32>)
    ensures var r, plain := Detect(p, b, candidates), !LittleMark(b) && !BigMark(b) && DecodeUtf8(b).None?;
            && (r == Err(InvalidBom) <==>
                  (LittleMark(b) && !TextBehindMark(b, true)) || (BigMark(b) && !TextBehindMark(b, false)))
            && (r == Ok(Utf8) <==> !LittleMark(b) && !BigMark(b) && DecodeUtf8(b).Some?)
            && (r == Ok(Utf16Le) <==>
                  || (LittleMark(b) && TextBehindMark(b, true))
                  || (plain && LooksLike16(b, true) && !LooksLike16(b, false)))
            && (r == Ok(Utf16Be) <==>
                  || (BigMark(b) && TextBehindMark(b, false))
                  || (plain && LooksLike16(b, false) && !LooksLike16(b, true)))
            && (plain && LooksLike16(b, true) && LooksLike16(b, false) ==> r == Err(Unknown))
  {
    MarkedCases(p, b, candidates);
    LooksPlausible(b, true);
    LooksPlausible(b, false);
    if !LittleMark(b) && !BigMark(b) { UnmarkedCases(p, b, candidates); }
  }

  /**
   The answer where neither mark, UTF-8 nor the shape of one UTF-16 order decides: the one candidate that decodes the
   bytes, an error if there is none, and all of them, in the order given, if there are several.
   */
  lemma DetectedFromPages(p: Platform, b: Bytes, candidates: seq<U32>)
    requires !LittleMark(b) && !BigMark(b) && DecodeUtf8(b).None? && !LooksLike16(b, true) && !LooksLike16(b, false)
    ensures exists positions, pages ::
              && AcceptedAt(p, b, candidates, positions, pages)
              && Detect(p, b, candidates) == FromPages(pages)
  {
    MarkedCases(p, b, candidates);
    LooksPlausible(b, true);
    LooksPlausible(b, false);
    UnmarkedCases(p, b, candidates);
    AcceptedExactly(p, b, candidates);
  }

  /** The positions are determined, so the answer above is the only one. */
  lemma {:induction false} PositionsAreUnique(p: Platform, b: Bytes, candidates: seq<U32>,
      one: seq<nat>, other: seq<nat>, pages: seq<U32>, others: seq<U32>)
    requires AcceptedAt(p, b, candidates, one, pages) && AcceptedAt(p, b, candidates, other, others)
    ensures one == other && pages == others
  {
    SortedSame(one, other);
  }

  lemma {:induction false} SortedSame(one: seq<nat>, other: seq<nat>)
    requires forall i, j :: 0 <= i < j < |one| ==> one[i] < one[j]
    requires forall i, j :: 0 <= i < j < |other| ==> other[i] < other[j]
    requires forall x: nat :: x in one <==> x in other
    ensures one == other
  {
    assert one != [] ==> one[0] in other;
    assert other != [] ==> other[0] in one;
    if one != [] {
      assert one[0] == other[0];
      forall x: nat ensures x in one[1..] <==> x in other[1..] {
        assert x in one[1..] ==> x in one && x > one[0];
        assert x in other[1..] ==> x in other && x > other[0];
      }
      SortedSame(one[1..], other[1..]);
      assert one == [one[0]] + one[1..] && other == [other[0]] + other[1..];
    }
  }
}
